# NICOF: the moving parts that carry data

NICOF connects programs in VM/370 virtual machines with a Java process outside the emulator. This project
models the parts that move the data, in their own form - classes over buffers, arrays and linked lists where
the programs have them, state machines where several parties act at once - and proves what they are for.

- **The outside proxy's connection engine.** `ProxyEngine` is the handshake machine on values, with logs of
  what was enqueued, transmitted and finished; `Connector` is the same machine over the hand-linked request
  objects, and does the engine's step in every method. A response is transmitted in order and finished only after it
  was transmitted; no response goes out twice if and only if the host never asks for a packet while none is under
  way and the queue head is the last one it got.
- **Both proxies together.** `InsideProxy` is the state machine on the VM side, on values, and `InsideBuffers` its
  rings of slots and interrupt handlers. `ProxyLink` connects it to the outside engine by a line in each direction;
  clients, programs outside and the two readers and writers interleave freely. `LinkTable` lists what can be on the
  lines at the same time. In all runs, with their collisions and resets, no response is transmitted twice and each
  accepted request gets at most one reply, its own (`LinkRuns`). `LinkTroubles` and `LinkRuns` say exactly what goes wrong.
  The proxies wait for each other for ever if and only if the last records on the way are read before the write they
  answer has ended: the ACK of an announcement, or the ACK of a packet with a WANT-SEND right behind it. In every other
  state all requests can still get their replies. Responses stay at an idle link exactly if an ACK finished one with
  another queued and no request was announced since. Announcements and resets follow each other, without any reply,
  after a request was announced with a packet unanswered (or a WANT-SEND read before the end of an announcement), until
  an ACK is read before the end of a reset. The last two happen also when no answer to an announcement or a packet is
  read too early.
- **The wire codecs.** `RecordCodec` and `HostReader` read and write telnet records with doubled IAC
  (RFC 854 "TELNET COMMAND STRUCTURE", RFC 856 section 5, RFC 885 section 5) whatever the cuts of the TCP
  stream; `SevenToEight` packs seven bytes into eight and `HostDecoder` unpacks them in place;
  `ResponseRecord` transmits a response in either form.
- **The bulk streams.** `Dispatcher` keeps the streams outside, `BulkStream` is the client's stdio-like side.
  Reading lines refines "split at line ends, chop to size" (`TextLines`); writing lines is its inverse
  (`TextPath`, with the code page tables in `CodePage`), and programs outside find the same lines (`PlatformLines`);
  many streams stay apart (`BulkRead`).
- **The client's request pool.** `RequestWaits` executes the API statement by statement with the response
  interrupt between any two of them, and `RequestCalls` says what each call has done when it returns; `RequestPool`
  holds what both sides do to the requests, `RequestList` the blocks in memory.
- **The socket tables.** `SocketTables` interleaves the client's calls, the proxy's receive loop and the pool
  threads; `SocketCalls` says what the calls get, and `SocketArrays` updates the two arrays in place.
- **Name lookup.** `HostLookup` lays out and takes apart the reply on its buffers, `HostEntry` says what it means,
  `ResolvedNames` which names it has.
- **FTP transfer.** `FtpRecords` states how uploads become records and records become downloads, `FtpText` which
  lines of text come back; `FtpTransfer` is the server's loops on its buffers.

Assumptions: communication with the outside succeeds (the stream functions see return code 0), the line end
mode is one of the four, `lastLineWasBufferEnd` starts false, counters do not wrap around, and VMCF answers an
accepted request at most once and no other. The queue claims start where dialing has cleared `sending`
(java/src/dev/hawala/vm370/commproxy/Dialed3270HostConnector.java:560), and each received request is answered at
most once. The lines between the proxies lose and reorder nothing, and the inside proxy reads one record at a time,
or an ACK with the WANT-SEND right behind it. A clock, the network, the resolver and VMCF are parameters or inputs of the steps.

Where code and comments differ, the code is modelled: `nerr == NERR_EOF` is a comparison without effect
(cms/ncfbases.c:293), `nwrite` returns the index of the byte whose block was refused, the flag
`lastLineWasBufferEnd` is not set when a stream is made (cms/ncfbases.c:246), the reply to a name lookup is
measured without its 12 header bytes, a text line of exactly the record length is stored with a blank record behind it,
and an upload to a file with a record length of zero makes records of one character.

## Model

| member | source | states |
|---|---|---|
| ProxyEngine.RunsConserve | java/src/dev/hawala/vm370/commproxy/Dialed3270HostConnector.java:1512-1555 | in every run of records, responses and reconnects: enqueued = finished ++ waiting; transmissions without repeats of the same head follow enqueue order without gaps, and the finished ones are a prefix of them |
| ProxyEngine.StepKeeps | java/src/dev/hawala/vm370/commproxy/Dialed3270HostConnector.java:848-1158 | every step keeps: `sending` implies that the queue head exists and is the last packet transmitted |
| ProxyEngine.HandshakeKeeps | java/src/dev/hawala/vm370/commproxy/Dialed3270HostConnector.java:848-930 | every handshake of the host keeps order, conservation and the meaning of `sending` |
| ProxyEngine.FinishKeeps | java/src/dev/hawala/vm370/commproxy/Dialed3270HostConnector.java:1536-1555 | the head is finished only if a packet was under way, and then it was the last one transmitted |
| ProxyEngine.SendKeeps | java/src/dev/hawala/vm370/commproxy/Dialed3270HostConnector.java:1512-1532 | sending the head continues the transmissions without a gap, or repeats the head |
| ProxyEngine.EnqueueKeeps | java/src/dev/hawala/vm370/commproxy/Dialed3270HostConnector.java:1124-1139 | a response goes to the end of what was enqueued and to the end of the queue |
| ProxyEngine.DialedStarts | java/src/dev/hawala/vm370/commproxy/Dialed3270HostConnector.java:559-568 | a freshly dialed connector meets the invariants |
| ProxyEngine.WantSendsAreSpaced | java/src/dev/hawala/vm370/commproxy/Dialed3270HostConnector.java:1124-1157 | in every run no want-send handshake is written while `sending` holds, and between any two WANT_SENDs there is a record from the host |
| ProxyEngine.StepKeepsWants | java/src/dev/hawala/vm370/commproxy/Dialed3270HostConnector.java:1051-1064 | every step keeps: an unanswered WANT_SEND implies `pendingRequestSend` |
| ProxyEngine.HandshakeKeepsWants | java/src/dev/hawala/vm370/commproxy/Dialed3270HostConnector.java:855-929 | after a record of the host every handshake keeps the want-sends apart |
| ProxyEngine.ClosedWants | java/src/dev/hawala/vm370/commproxy/Dialed3270HostConnector.java:1150-1154 | if no WANT_SEND is open, a host record stands behind every one of them |
| ProxyEngine.AnsweringHostGetsEachOnce | java/src/dev/hawala/vm370/commproxy/Dialed3270HostConnector.java:875-885 | if the host answers each data packet with ACK or SEND-PACKET before anything else, every response is transmitted exactly once per connection, in order |
| ProxyEngine.HandshakeKeepsOnce | java/src/dev/hawala/vm370/commproxy/Dialed3270HostConnector.java:875-885 | such an answer keeps: transmitted = finished plus the packet under way |
| ProxyEngine.OnceIffNoneRepeats | java/src/dev/hawala/vm370/commproxy/Dialed3270HostConnector.java:881-885 | in every run of a connection no response is transmitted twice if and only if no SEND-PACKET comes while none is under way and the head was the last one transmitted |
| ProxyEngine.RunExtra | java/src/dev/hawala/vm370/commproxy/Dialed3270HostConnector.java:1512-1532 | the number of repeated transmissions never falls in a run, and stays exactly if no such SEND-PACKET comes |
| ProxyEngine.StepExtra | java/src/dev/hawala/vm370/commproxy/Dialed3270HostConnector.java:848-930 | each step adds one repeated transmission if it is such a SEND-PACKET, and else none |
| ProxyEngine.AnsweringNeverRepeats | java/src/dev/hawala/vm370/commproxy/Dialed3270HostConnector.java:875-885 | a host that answers each packet never sends one like that |
| ProxyEngine.DialedOnce | java/src/dev/hawala/vm370/commproxy/Dialed3270HostConnector.java:559-568 | a connection starts with nothing transmitted or under way |
| ProxyEngine.UnansweredIsRepeated | java/src/dev/hawala/vm370/commproxy/Dialed3270HostConnector.java:855-874 | a WILL-SEND between packet and answer makes the response to a request go out twice |
| ProxyEngine.ForeignChangesNothing | java/src/dev/hawala/vm370/commproxy/Dialed3270HostConnector.java:962-981 | a screen of some other program, and before the proxy VM has shown itself any other record, writes nothing and leaves flags, queue and requests alone |
| ProxyEngine.ProxyConnects | java/src/dev/hawala/vm370/commproxy/Dialed3270HostConnector.java:976-980 | a record of the proxy VM connects, and from then on one without its position does the same as one with it |
| ProxyEngine.RecordEndsSending | java/src/dev/hawala/vm370/commproxy/Dialed3270HostConnector.java:848-930 | each record of the host that means something ends the sending; only a SEND-PACKET starts the next one, and the packet under way is finished exactly by an ACK or a SEND-PACKET |
| ProxyEngine.OthersKeepSending | java/src/dev/hawala/vm370/commproxy/Dialed3270HostConnector.java:559-568 | nothing else changes it but a new connection |
| ProxyEngine.HostSilences | java/src/dev/hawala/vm370/commproxy/Dialed3270HostConnector.java:855-859 | after a WILL-SEND or a WELCOME nobody asks for sending in any run until the host allows it with an ACK, a RESET or a data packet |
| ProxyEngine.HostAllows | java/src/dev/hawala/vm370/commproxy/Dialed3270HostConnector.java:1118-1157 | after that the next response for an empty queue is asked for at once, and waiting ones with the answer to a RESET or a data packet |
| ProxyEngine.PauseKept | java/src/dev/hawala/vm370/commproxy/Dialed3270HostConnector.java:860-874 | in every run the pause before an ACK is only made if no ACK was written since the want-send, and always after a want-send |
| InsideProxy.WccIsRead | java/src/dev/hawala/vm370/commproxy/Dialed3270HostConnector.java:834-843 | each handshake code of the inside proxy is read by the outside one as what it means (inside: cms/ioproxy.c:558-577) |
| LinkTable.HostReadAgrees | java/src/dev/hawala/vm370/commproxy/Dialed3270HostConnector.java:394-418 | whatever the inside proxy reads in one of the listed combinations of states and records on the lines leads to a listed one (inside: cms/ioproxy.c:910-1137) |
| LinkTable.AnnouncedRead | java/src/dev/hawala/vm370/commproxy/Dialed3270HostConnector.java:402-404 | also while it announces a request and the outside proxy asks at the same time (inside: cms/ioproxy.c:959-963) |
| LinkTable.ProxyReadAgrees | java/src/dev/hawala/vm370/commproxy/Dialed3270HostConnector.java:848-930 | so does whatever the outside proxy reads |
| LinkTable.RespondedAgrees | java/src/dev/hawala/vm370/commproxy/Dialed3270HostConnector.java:1118-1157 | so does a response at any time |
| LinkTable.RequestedAgrees | java/src/dev/hawala/vm370/commproxy/Dialed3270HostConnector.java:855-874 | a client's request leads from a listed combination to a listed one (inside: cms/ioproxy.c:515-525) |
| ProxyLink.HostReadsView | java/src/dev/hawala/vm370/commproxy/Dialed3270HostConnector.java:394-418 | reading a record does on the two real machines and lines what the table's step does (inside: cms/ioproxy.c:910-1137) |
| ProxyLink.ProxyReadsView | java/src/dev/hawala/vm370/commproxy/Dialed3270HostConnector.java:952-1071 | so does the outside proxy's reading |
| ProxyLink.ClientSendsView | java/src/dev/hawala/vm370/commproxy/Dialed3270HostConnector.java:839 | so does a client's request, unless there is no slot (inside: cms/ioproxy.c:515-525) |
| ProxyLink.AnswerView | java/src/dev/hawala/vm370/commproxy/Dialed3270HostConnector.java:1118-1157 | so does a response |
| LinkRuns.EachRequestOnce | java/src/dev/hawala/vm370/commproxy/Dialed3270HostConnector.java:848-1158 | in all runs: the n-th reply is made of the n-th response and goes to the request that it answers; no request gets two replies; each accepted one has got its reply or is in exactly one place; each slot is free or holds one request in work; replies, transmissions and acknowledgements differ by one at most, and three records at most are on a line (inside: cms/ioproxy.c:910-1137) |
| LinkRuns.TransmittedOnce | java/src/dev/hawala/vm370/commproxy/Dialed3270HostConnector.java:1512-1532 | in all runs of both proxies the responses are transmitted in order, each once |
| LinkRuns.InsideProxyAnswers | java/src/dev/hawala/vm370/commproxy/Dialed3270HostConnector.java:875-885 | in all runs the inside proxy answers each data packet before it sends anything else (inside: cms/ioproxy.c:1102-1136) |
| LinkRuns.StepKeeps | java/src/dev/hawala/vm370/commproxy/Dialed3270HostConnector.java:848-1158 | every step of every party keeps the invariant of the link (inside: cms/ioproxy.c:476-1189) |
| LinkRuns.StartOk | java/src/dev/hawala/vm370/commproxy/Dialed3270HostConnector.java:559-568 | it holds when the outside proxy has just dialed (inside: cms/ioproxy.c:238-256) |
| LinkRuns.RunShows | java/src/dev/hawala/vm370/commproxy/Dialed3270HostConnector.java:848-1158 | every run of both machines goes on in the table as the run of the table with the same events does |
| LinkRuns.StuckIffAckLost | java/src/dev/hawala/vm370/commproxy/Dialed3270HostConnector.java:855-881 | the inside proxy has announced a request, or the outside one asks for sending after a packet, with nothing on the way, if and only if in the run the only record on the way, the ACK of an announcement, or the only two, the ACK of a packet and a WANT-SEND, were read while the write they answer had not ended (inside: cms/ioproxy.c:926-976) |
| LinkRuns.DeadIffStuck | java/src/dev/hawala/vm370/commproxy/Dialed3270HostConnector.java:848-1158 | in these states no record is ever written again whatever happens, and in all others every request accepted can still get its reply |
| LinkRuns.Finishing | java/src/dev/hawala/vm370/commproxy/Dialed3270HostConnector.java:848-1158 | a run after which nothing is on the way, the inside proxy is idle and nothing is waiting, queued or outside; each of its steps brings it nearer, resets included |
| LinkRuns.TroubleStep | java/src/dev/hawala/vm370/commproxy/Dialed3270HostConnector.java:848-1158 | which single steps begin and end waiting for each other, responses left over, and resets that follow each other (inside: cms/ioproxy.c:926-986) |
| LinkRuns.TroubleIff | java/src/dev/hawala/vm370/commproxy/Dialed3270HostConnector.java:848-1158 | a run ends in one of these exactly if some step of it begins it and none after that ends it, or it was there and none ends it |
| LinkRuns.AckCanBeLost | java/src/dev/hawala/vm370/commproxy/Dialed3270HostConnector.java:855-881 | the first request of a client can get stuck in both ways: its announcement is lost, or the WANT-SEND of its response (inside: cms/ioproxy.c:959-976) |
| LinkRuns.QuietMeansIdle | java/src/dev/hawala/vm370/commproxy/Dialed3270HostConnector.java:848-930 | if no ACK is read before the write it answers has ended, the inside proxy is idle whenever nothing is on the way (inside: cms/ioproxy.c:1162-1189) |
| LinkRuns.PromptFromStart | java/src/dev/hawala/vm370/commproxy/Dialed3270HostConnector.java:559-568 | in particular in all such runs from the start of the connection |
| LinkRuns.LeftAreSent | java/src/dev/hawala/vm370/commproxy/Dialed3270HostConnector.java:1512-1532 | responses left over are on the way again after one request of a client, or after a request that waits already: the first one is transmitted (inside: cms/ioproxy.c:981-982) |
| LinkRuns.StormStarves | java/src/dev/hawala/vm370/commproxy/Dialed3270HostConnector.java:896-912 | while resets follow each other and no ACK is ignored, no client gets a reply, whatever else happens (inside: cms/ioproxy.c:964-985) |
| LinkTroubles.RoundRepeats | java/src/dev/hawala/vm370/commproxy/Dialed3270HostConnector.java:855-874 | a round of announcement, reset and announcement leads both proxies and lines back to where they were (inside: cms/ioproxy.c:964-985) |
| LinkRuns.PromptIsNotEnough | java/src/dev/hawala/vm370/commproxy/Dialed3270HostConnector.java:855-912 | runs from the start that leave a response over, and that lead to such resets, though no ACK is read before the write it answers has ended |
| Connector.Connector.constructor | java/src/dev/hawala/vm370/commproxy/Dialed3270HostConnector.java:62 | a new connector is sending, has no objects and meets the list invariant |
| Connector.Connector.DialToVm | java/src/dev/hawala/vm370/commproxy/Dialed3270HostConnector.java:559-568 | dialing clears `sending` and writes the welcome |
| Connector.Connector.InnerReceiveRecord | java/src/dev/hawala/vm370/commproxy/Dialed3270HostConnector.java:952-1071 | does the engine's step; a request is returned exactly for an interpreted data packet, is being processed from then on, and was free or new |
| Connector.Connector.Allocate | java/src/dev/hawala/vm370/commproxy/Dialed3270HostConnector.java:990-999 | the request is the first of the free list or a new object, and is in no other list |
| Connector.Connector.Recognize | java/src/dev/hawala/vm370/commproxy/Dialed3270HostConnector.java:958-979 | which records are interpreted, and when the proxy counts as connected |
| Connector.Connector.Acknowledge | java/src/dev/hawala/vm370/commproxy/Dialed3270HostConnector.java:1049-1066 | the acknowledge of a data packet asks to send exactly if responses wait |
| Connector.Connector.HandleHandshake | java/src/dev/hawala/vm370/commproxy/Dialed3270HostConnector.java:848-930 | each handshake does the engine's step and loses no request object |
| Connector.Connector.HandleAck | java/src/dev/hawala/vm370/commproxy/Dialed3270HostConnector.java:875-880 | ACK finishes the head under way and marks the host idle |
| Connector.Connector.HandleSendPacket | java/src/dev/hawala/vm370/commproxy/Dialed3270HostConnector.java:881-885 | SEND-PACKET finishes the head under way and transmits the next one |
| Connector.Connector.HandleReset | java/src/dev/hawala/vm370/commproxy/Dialed3270HostConnector.java:896-911 | RESET answers with ACK_WANT_SEND exactly if responses wait |
| Connector.Connector.SendResponse | java/src/dev/hawala/vm370/commproxy/Dialed3270HostConnector.java:1118-1158 | the answered request moves from processing to the end of the queue; a new head asks for permission when allowed |
| Connector.Connector.Append | java/src/dev/hawala/vm370/commproxy/Dialed3270HostConnector.java:1124-1133 | linking behind the last request keeps the chain acyclic and null-terminated with the new request at its end |
| Connector.Connector.LinkLast | java/src/dev/hawala/vm370/commproxy/Dialed3270HostConnector.java:1130 | the chain from the first request runs through the new one to null; the free list and the requests being processed stay |
| Connector.Connector.Start | java/src/dev/hawala/vm370/commproxy/Dialed3270HostConnector.java:1138-1139 | a request put into an empty queue is its first and last |
| Connector.Connector.FinishFirstQueued | java/src/dev/hawala/vm370/commproxy/Dialed3270HostConnector.java:1536-1555 | a sent head leaves the queue and becomes the first of the free list; nothing else moves |
| Connector.Connector.DropHead | java/src/dev/hawala/vm370/commproxy/Dialed3270HostConnector.java:1542-1554 | relinking the head keeps both chains, the last-pointer and the list of requests in work right |
| Connector.Connector.SendFirstQueued | java/src/dev/hawala/vm370/commproxy/Dialed3270HostConnector.java:1512-1532 | the head is transmitted with the aid code that tells whether another one waits; the lists stay |
| Connector.FinishParts | java/src/dev/hawala/vm370/commproxy/Dialed3270HostConnector.java:1542-1554 | every object stays in exactly one of free list, processing and queue when the head is freed |
| Connector.EnqueueParts | java/src/dev/hawala/vm370/commproxy/Dialed3270HostConnector.java:1124-1139 | and when a processed request is enqueued |
| Connector.AllocateParts | java/src/dev/hawala/vm370/commproxy/Dialed3270HostConnector.java:990-999 | and when one is taken for a new request |
| Connector.WithoutElems | java/src/dev/hawala/vm370/commproxy/Dialed3270HostConnector.java:1551 | removing from the list of requests in work takes out just that object |
| RecordCodec.RecordReadsBack | java/src/dev/hawala/vm370/commproxy/Dialed3270HostConnector.java:1001-1047 | a record written with doubled IAC and ended by IAC EOR is read back with the data cut to 2048 bytes, and the reader stops exactly behind it |
| RecordCodec.BodyReadsBack | java/src/dev/hawala/vm370/commproxy/Dialed3270HostConnector.java:1025-1046 | the data loop undoes the doubling for all data, also with 0xFF 0xEF inside |
| RecordCodec.BytesReadBack | java/src/dev/hawala/vm370/commproxy/Dialed3270HostConnector.java:656-667 | single bytes written doubled are read back one by one |
| RecordCodec.WordsReadBack | java/src/dev/hawala/vm370/commproxy/Dialed3270HostConnector.java:669-685 | half-words and full words round-trip |
| RecordCodec.HighByteFirst | java/src/dev/hawala/vm370/commproxy/Dialed3270HostConnector.java:669-685 | half-words and full words are written with their high bytes first |
| HostReader.HostReader.RcvByteRaw | java/src/dev/hawala/vm370/commproxy/Dialed3270HostConnector.java:634-653 | the next byte of the concatenated input whatever the read boundaries, with `rcvPos` within the buffer |
| HostReader.HostReader.FillBuffer | java/src/dev/hawala/vm370/commproxy/Dialed3270HostConnector.java:636-650 | refilling changes nothing about the bytes to come |
| HostReader.HostReader.GiveBack | java/src/dev/hawala/vm370/commproxy/Dialed3270HostConnector.java:661-664 | a byte given back is the next one again, also right behind a refill |
| HostReader.HostReader.RcvByte | java/src/dev/hawala/vm370/commproxy/Dialed3270HostConnector.java:656-667 | un-doubles IAC as the function on the bytes ahead does |
| HostReader.HostReader.RcvBytes | java/src/dev/hawala/vm370/commproxy/Dialed3270HostConnector.java:1002-1008 | the user name of a request, un-doubled |
| HostReader.HostReader.RcvHalfWord | java/src/dev/hawala/vm370/commproxy/Dialed3270HostConnector.java:670-675 | the half-word in the next two bytes, un-doubled |
| HostReader.HostReader.RcvFullWord | java/src/dev/hawala/vm370/commproxy/Dialed3270HostConnector.java:678-685 | the word in the next four bytes, un-doubled |
| HostReader.HostReader.RcvData | java/src/dev/hawala/vm370/commproxy/Dialed3270HostConnector.java:1025-1047 | the data up to IAC EOR, cut to the buffer, leaving what follows the record |
| HostReader.HostReader.RcvRecord | java/src/dev/hawala/vm370/commproxy/Dialed3270HostConnector.java:1001-1047 | a whole request depends only on the concatenated input |
| SevenToEight.RoundTrip | java/src/dev/hawala/vm370/commproxy/Dialed3270HostConnector.java:1407-1462 | decoding and cutting to the number of bytes written gives them back, and the code is 8*(n/7+1) bytes long |
| SevenToEight.EncodeIsSevenBit | java/src/dev/hawala/vm370/commproxy/Dialed3270HostConnector.java:1392-1398 | every coded byte is below 0x80, so never IAC |
| SevenToEight.GroupDecodes | java/src/dev/hawala/vm370/commproxy/Dialed3270HostConnector.java:1428-1437 | the eighth byte gives each of the seven its high bit back |
| SevenToEight.Encoder.Write | java/src/dev/hawala/vm370/commproxy/Dialed3270HostConnector.java:1428-1437 | a single byte extends what was written since the reset |
| SevenToEight.Encoder.WriteBlock | java/src/dev/hawala/vm370/commproxy/Dialed3270HostConnector.java:1440-1462 | a block does the same as its bytes one by one, from any encoder state |
| SevenToEight.Encoder.Flush | java/src/dev/hawala/vm370/commproxy/Dialed3270HostConnector.java:1418-1425 | after any mix of writes the output is the code of all bytes written |
| HostDecoder.DecodeInPlace | java/src/dev/hawala/vm370/commproxy/Dialed3270HostConnector.java:1428-1462 | decoding the receive buffer onto itself gives the decoded bytes; an incomplete last group counts (inside: cms/ioproxy.c:1050-1078) |
| HostDecoder.DecodedIs | java/src/dev/hawala/vm370/commproxy/Dialed3270HostConnector.java:1428-1462 | group by group and byte by byte is decoding the whole (inside: cms/ioproxy.c:1050-1078) |
| ResponseRecord.HostOutput.WriteBlock | java/src/dev/hawala/vm370/commproxy/Dialed3270HostConnector.java:1482-1507 | writing runs without IAC in one piece gives the escaped block |
| ResponseRecord.HostOutput.Transmit | java/src/dev/hawala/vm370/commproxy/Dialed3270HostConnector.java:1331-1375 | the binary form of a response record: AID, cursor, user name, escaped fields and data, IAC EOR, of which `BinaryArrives` tells what a reader finds |
| ResponseRecord.TransmitCoded | java/src/dev/hawala/vm370/commproxy/Dialed3270HostConnector.java:1331-1375 | the 7-to-8 form of a response record, of which `CodedArrives` tells what a reader finds |
| ResponseRecord.BinaryArrives | java/src/dev/hawala/vm370/commproxy/Dialed3270HostConnector.java:1331-1375 | whoever reads the binary record without its doubled bytes finds the AID first, then 0x40 0x40, then user, slot, words and data, with nothing of what follows, if and only if the user name holds no IAC |
| ResponseRecord.CodedArrives | java/src/dev/hawala/vm370/commproxy/Dialed3270HostConnector.java:1331-1425 | whoever reads and decodes the 7-to-8 record of a user name without IAC finds the same, AID first |
| TextLines.LinesArePieces | cms/ncfbases.c:280-363 | repeated calls return the text split at line ends and chopped: an empty line is one empty piece, an exact multiple gives no extra piece |
| TextLines.TakeByFirstEnd | cms/ncfbases.c:314-362 | one call takes the line, or a full buffer of it and sets the flag |
| TextLines.InitialFlagMatters | cms/ncfbases.c:246 | with the flag set at the start the lines are the same if and only if the text does not start with a line end |
| TextLines.KeptLinesConserve | cms/ncfbases.c:347-352 | with kept line ends the pieces together are the text |
| TextLines.HeadingChar | cms/ncfbases.c:340-358 | each character taken keeps the loop on its way to the result |
| TextLines.HeadingAtEnd | cms/ncfbases.c:333-337 | the end of the source ends the line, or the text |
| BulkStream.BulkStream.Ngetstr | cms/ncfbases.c:280-363 | on a file's text one step of the specification, for any cutting into blocks, both settings of keepNL and all line end modes; wrong kinds of stream deliver nothing |
| BulkStream.BulkStream.Collect | cms/ncfbases.c:312-360 | the collecting loop delivers the next piece and leaves the rest of the text |
| BulkStream.BulkStream.TakeChar | cms/ncfbases.c:340-358 | one buffered character, in all line end modes |
| BulkStream.BulkStream.RefillText | cms/ncfbases.c:320-332 | fetching a block does not change the text to come |
| BulkStream.ReadLines | cms/ncfbases.c:280-363 | reading a file-backed stream to its end returns exactly the chopped lines of its text |
| BulkStream.BulkStream.Nread | cms/ncfbases.c:374-426 | delivers what the specification delivers, fetching blocks as needed |
| BulkStream.BulkStream.Nputstr | cms/ncfbases.c:461-504 | a string and its line end follow everything put before; on failure a beginning of it does |
| BulkStream.BulkStream.Nwrite | cms/ncfbases.c:512-539 | a block follows everything put before; a result below its length means one byte more was put |
| BulkStream.BulkStream.NflushInner | cms/ncfbases.c:428-445 | blocks sent plus bytes buffered stay what was put; an empty buffer sends nothing |
| BulkStream.BulkStream.PutC | cms/ncfbases.c:447-452 | one byte more is put, and the buffer is never full between calls |
| BulkStream.BulkStream.Nflush | cms/ncfbases.c:558-571 | flushing hands over what is buffered and loses nothing |
| BulkStream.BulkStream.Nclose | cms/ncfbases.c:576-601 | a closed sink was given exactly what was put |
| BulkStream.WriteLines | cms/ncfbases.c:461-504 | lines written one after the other are put in order with their line ends |
| BulkStream.WriteThenRead | cms/ncfbases.c:280-504 | what one text stream writes as lines and closes, another stream on that file, also of the same client, reads back as the same lines if and only if they all fit, in all four line end modes and for any cutting into blocks |
| BulkStream.WriteFile | cms/ncfbases.c:461-601 | lines written to a new sink that is then closed are there, translated; split at the line ends of the platform they are these lines if and only if none contains such a line end |
| PlatformLines.PlatformFindsLines | cms/ncfbases.c:489-501 | a program outside that splits the text at 0A 0D, 0A, 0D or 0D 0A, as modes 0 to 3 tell, finds the lines written if and only if none of them, translated, contains that line end |
| PlatformLines.FirstOutside | cms/ncfbases.c:489-501 | outside, each line is followed by just these bytes |
| BulkStream.ReadFile | cms/ncfbases.c:280-363 | a file read from its start gives the chopped lines of its translated text |
| TextPath.TextRoundTrip | cms/ncfbases.c:280-504 | what is read of the text written for lines is these lines if and only if each fits the buffer and consists of characters that survive the code page and are no line ends, in all four line end modes |
| TextPath.PiecesOfWritten | cms/ncfbases.c:489-501 | the text seen of written lines splits into these lines if and only if they all fit |
| CodePage.LineEndsFaithful | cms/nicofclt.c:690-760 | the tables carry both line end characters through |
| CodePage.LettersAndDigits | cms/nicofclt.c:690-720 | the letters of both cases and the digits become those of ISO-Latin-1 |
| CodePage.LettersAndDigitsFaithful | cms/nicofclt.c:690-760 | and come back |
| TextPath.SeenAsWritten | cms/nicofclt.c:690-779 | a line is seen as it was written, without a line end, if and only if all its characters survive both translations and are no line ends |
| BulkRead.FillConserves | cms/ncfbases.c:398-425 | a read neither loses nor doubles bytes |
| BulkRead.ShortOnlyAtEnd | cms/ncfbases.c:400-423 | a blocking read is short only when its source has ended or failed |
| BulkRead.FillFrame | java/src/dev/hawala/vm370/commproxy/LevelZeroToLevelOneDispatcher.java:253-267 | reading one stream leaves all others alone |
| BulkRead.StreamsStayApart | java/src/dev/hawala/vm370/commproxy/LevelZeroToLevelOneDispatcher.java:87-142 | with any number of streams opened, read and closed in any order each one's reads concatenate to a prefix of its own source; no id is given out twice, and none is both a source's and a sink's |
| BulkRead.EmptyWorldOk | java/src/dev/hawala/vm370/commproxy/LevelZeroToLevelOneDispatcher.java:87-97 | with no stream opened yet the invariant holds, whatever the clock says |
| BulkRead.StepKeeps | java/src/dev/hawala/vm370/commproxy/LevelZeroToLevelOneDispatcher.java:99-121 | no step mixes streams, and a new id was never given out |
| Dispatcher.StreamManager.constructor | java/src/dev/hawala/vm370/commproxy/LevelZeroToLevelOneDispatcher.java:94-97 | sources start even, sinks odd, whatever the clock says |
| Dispatcher.StreamManager.AddSource | java/src/dev/hawala/vm370/commproxy/LevelZeroToLevelOneDispatcher.java:99-105 | a new source gets an even id above all before |
| Dispatcher.StreamManager.AddSink | java/src/dev/hawala/vm370/commproxy/LevelZeroToLevelOneDispatcher.java:107-113 | a new sink gets an odd id above all before |
| Dispatcher.StreamManager.RemoveStream | java/src/dev/hawala/vm370/commproxy/LevelZeroToLevelOneDispatcher.java:115-121 | the parity finds the right table: that stream is gone, all others stay |
| Dispatcher.StreamManager.BulkSourceRead | java/src/dev/hawala/vm370/commproxy/LevelZeroToLevelOneDispatcher.java:253-267 | a read takes the next block of that source only; a wrong id is refused |
| Dispatcher.StreamManager.BulkSinkWrite | java/src/dev/hawala/vm370/commproxy/LevelZeroToLevelOneDispatcher.java:305-319 | a write gives the block to that sink only; a wrong id is refused |
| Dispatcher.StreamManager.BulkSourceClose | java/src/dev/hawala/vm370/commproxy/LevelZeroToLevelOneDispatcher.java:280-284 | closing forgets that source only |
| Dispatcher.StreamManager.BulkSinkClose | java/src/dev/hawala/vm370/commproxy/LevelZeroToLevelOneDispatcher.java:320-324 | closing forgets that sink only |
| Dispatcher.RefusedIff | java/src/dev/hawala/vm370/commproxy/LevelZeroToLevelOneDispatcher.java:253-324 | requests are refused, with the code of their kind and without effect, exactly for ids of no open stream |
| Dispatcher.ReadTakes | java/src/dev/hawala/vm370/commproxy/LevelZeroToLevelOneDispatcher.java:265-267 | what a read delivers is the beginning of what the source has left, and no other stream changes |
| Dispatcher.WriteGives | java/src/dev/hawala/vm370/commproxy/LevelZeroToLevelOneDispatcher.java:317-319 | a written block follows all the sink was given before, and no other stream changes |
| Dispatcher.CloseForgets | java/src/dev/hawala/vm370/commproxy/LevelZeroToLevelOneDispatcher.java:280-324 | a closed stream is refused from then on, and all others are as they were |
| RequestWaits.PendingIdsUnique | cms/nicofclt.c:280-313 | in every reachable state pending ids are pairwise distinct, above MID_PEND and given out |
| RequestWaits.NoLostWakeUp | cms/nicofclt.c:77-80 | in every run a waiter blocked in ncf_030 with its response received, or in ncf_037 with a matching one received, finds the ECB posted |
| RequestWaits.OnlyItsResponse | cms/nicofclt.c:579-610 | a transmitted request is neither freed nor reused nor changed but by its own response, and that changes no other |
| RequestWaits.WaitGetsItsReply | cms/nicofclt.c:325-332 | a completed wait returns the code and holds the data of the reply to the last transmission |
| RequestWaits.WaiterGetsThrough | cms/nicofclt.c:318-333 | once its response has come a waiter gets nearer to the end with each statement and no interrupt throws it back |
| RequestWaits.AnyWaiterGetsThrough | cms/nicofclt.c:453-470 | the same for the scanning wait, and neither a response nor the timer throws it back |
| RequestWaits.TimedOutGetsThrough | cms/nicofclt.c:453-471 | once its time is over each statement brings the scanning wait nearer to its end, and no interrupt throws it back |
| RequestCalls.AnyFindsMatching | cms/nicofclt.c:432-480 | a call of the scanning wait with a tag hands out a received request with that tag, whatever responses and timer interrupts come while it runs |
| RequestCalls.CallDoes | cms/nicofclt.c:187-576 | each call, from its start to its return, with any interrupts between its statements: a new request is the newest free one with the words given; loading cuts to 2048; sending numbers it and gives it back, leaves it under way, or returns with its reply; a wait returns the code of the reply to the last transmission; a search is refused exactly if nothing is awaited; freeing is refused exactly if pending; all other requests stay or get their replies |
| RequestCalls.EnterDoes | cms/nicofclt.c:280-283 | the checks at the start of each call |
| RequestCalls.StepDoes | cms/nicofclt.c:280-480 | no statement and no interrupt leads away from what the call is to do |
| RequestWaits.StepKeeps | cms/nicofclt.c:99-105 | every statement and every interrupt keeps the ids, the requests under way and the replies in order |
| RequestWaits.InterruptKeeps | cms/nicofclt.c:579-610 | so does a response interrupt between any two statements |
| RequestWaits.SendKeeps | cms/nicofclt.c:280-313 | so does sending, also when VMCF refuses and the request is new again |
| RequestWaits.CreateKeeps | cms/nicofclt.c:99-105 | only a free request is made new |
| RequestWaits.WaitAnyKeeps | cms/nicofclt.c:427-479 | if the scan has passed a response it looks for, the ECB is posted |
| RequestWaits.CreateCompletes | cms/nicofclt.c:187-193 | left alone, the statements of ncf_010 make the newest free request new, or one more |
| RequestWaits.SendCompletes | cms/nicofclt.c:280-313 | left alone, the statements of ncf_021 put the request under way with the next id, or make it new again |
| RequestWaits.ScanCompletes | cms/nicofclt.c:454-464 | left alone, the scan ends with the newest matching response, or waits because there is none |
| RequestWaits.PostedByResponse | cms/nicofclt.c:77-80 | a waiter clears the ECB, and only a response that its filter lets through posts it again |
| RequestPool.DeliverKeeps | cms/nicofclt.c:585-607 | the search by id finds the request the id was used for |
| RequestPool.PendingIdsDiffer | cms/nicofclt.c:283-284 | in a pool in order two pending requests have different ids |
| RequestPool.NumberKeeps | cms/nicofclt.c:284 | the next id is in use nowhere |
| RequestPool.FindId | cms/nicofclt.c:586-590 | the first request of the list with an id, if there is one |
| RequestPool.RcTells | cms/nicofclt.c:540-607 | the return code is 0 exactly for a response, and different reasons have different codes |
| RequestList.RequestList.GetRequest | cms/nicofclt.c:99-105 | the newest free block, with its length reset, or a new one at the head of the list |
| RequestList.RequestList.CreateRequest | cms/nicofclt.c:187-193 | that block becomes new with its user words; all others stay |
| RequestList.RequestList.SendRequest | cms/nicofclt.c:280-309 | only a new request is sent; it gets the next id, and is new again if VMCF refuses |
| RequestList.RequestList.FreeRequest | cms/nicofclt.c:567-577 | a pending request is refused, any other becomes free |
| RequestList.RequestList.HandleExt | cms/nicofclt.c:583-610 | the response goes to the request with its id, and the ECB is posted unless the filter holds it back |
| RequestList.RequestList.ScanResponses | cms/nicofclt.c:454-464 | the newest received request that the filter lets through |
| SocketTables.DescriptorsHold | java/src/dev/hawala/vm370/commproxy/socketapi/Level0SocketAPIHandler.java:152-220 | over all interleavings every open descriptor names an occupied slot with the very socket it was opened for, and no two share one |
| SocketTables.OneOwner | java/src/dev/hawala/vm370/commproxy/socketapi/Level0SocketAPIHandler.java:527-561 | two requests never own the same slot, and none owns that of an open descriptor |
| SocketTables.OpenStaysOpen | cms/ncfsockt.c:432-445 | nothing but its own close touches an open descriptor and its slot |
| SocketTables.NotHandedOutTwice | cms/ncfsockt.c:409-429 | a number is handed out only for a closed descriptor, whose slot holds the socket made for that request |
| SocketTables.InitialOk | java/src/dev/hawala/vm370/commproxy/socketapi/Level0SocketAPIHandler.java:148-150 | with all slots empty and all descriptors closed the ownership invariant holds |
| SocketTables.StepKeeps | java/src/dev/hawala/vm370/commproxy/socketapi/Level0SocketAPIHandler.java:634-702 | every call, receipt and completion keeps each slot with its one owner |
| SocketTables.AcceptCallKeeps | cms/ncfsockt.c:1007-1079 | an accept call keeps each pending accept with one descriptor or one waiting call |
| SocketTables.CloseCallKeeps | cms/ncfsockt.c:432-445 | a close hands the slot over to its request at once |
| SocketTables.ReturnKeeps | cms/ncfsockt.c:1066-1078 | a returning call takes the slot over from its request |
| SocketTables.TakeKeeps | java/src/dev/hawala/vm370/commproxy/socketapi/Level0SocketAPIHandler.java:642-699 | a received request takes an empty slot or none |
| SocketTables.CompleteKeeps | java/src/dev/hawala/vm370/commproxy/socketapi/Level0SocketAPIHandler.java:527-561 | a late accept or close fills or frees the slot of its own request |
| SocketTables.InitialSocksOk | java/src/dev/hawala/vm370/commproxy/socketapi/Level0SocketAPIHandler.java:148-150 | no two slots hold a socket at the start |
| SocketTables.SocksKeep | java/src/dev/hawala/vm370/commproxy/socketapi/Level0SocketAPIHandler.java:174-186 | no two slots ever hold the same socket |
| SocketCalls.SocketCall | java/src/dev/hawala/vm370/commproxy/socketapi/Level0SocketAPIHandler.java:642-675 | a socket call gets the lowest empty slot with a new socket, and an open descriptor of its kind, if the kind is supported and a slot is empty; otherwise nothing changes |
| SocketCalls.AcceptCallWaits | java/src/dev/hawala/vm370/commproxy/socketapi/Level0SocketAPIHandler.java:684-696 | an accept that waits gets a new socket in the lowest empty slot and a connected descriptor, if a connection comes and a slot is empty; otherwise nothing changes |
| SocketCalls.AcceptCallSends | cms/ncfsockt.c:1026-1040 | an accept that must not wait sends its request and leaves all else alone |
| SocketCalls.AcceptCallExpects | cms/ncfsockt.c:1042-1044 | until it is answered, further calls change nothing |
| SocketCalls.AcceptCallGets | cms/ncfsockt.c:1046-1078 | once it is answered, the next call gets the connection, and the descriptor listens on without a pending accept |
| SocketCalls.AcceptCallRefused | cms/ncfsockt.c:1014-1017 | a closed, connected, not listening or busy descriptor accepts nothing |
| SocketCalls.CloseCallFrees | cms/ncfsockt.c:432-445 | a close empties the slot and closes the descriptor, and nothing else changes |
| SocketCalls.ListenCall | cms/ncfsockt.c:1003-1004 | an open descriptor that is not connected listens from then on, and nothing else changes |
| SocketCalls.ConnectCall | cms/ncfsockt.c:1015-1016 | a connected descriptor neither listens nor accepts, and a listening one does not connect |
| SocketCalls.JobStays | java/src/dev/hawala/vm370/commproxy/socketapi/Level0SocketAPIHandler.java:527-561 | between the steps of a request those of others leave it as it is |
| SocketArrays.ProxySockets.GetFreeSocket | java/src/dev/hawala/vm370/commproxy/socketapi/Level0SocketAPIHandler.java:152-165 | reserves the lowest empty slot, or nothing and says so |
| SocketArrays.ProxySockets.AllocSocket | java/src/dev/hawala/vm370/commproxy/socketapi/Level0SocketAPIHandler.java:642-675 | does the receipt of a socket request; an unsupported kind leaves the array as it was |
| SocketArrays.ProxySockets.ReceiveAccept | java/src/dev/hawala/vm370/commproxy/socketapi/Level0SocketAPIHandler.java:684-696 | does the receipt of an accept |
| SocketArrays.ProxySockets.Finish | java/src/dev/hawala/vm370/commproxy/socketapi/Level0SocketAPIHandler.java:202-220 | does the completion of an accept or close |
| SocketArrays.ClientSockets.AcceptSocket | cms/ncfsockt.c:1014-1048 | does the accept call up to its wait, with all its refusals |
| SocketArrays.ClientSockets.CloseSocket | cms/ncfsockt.c:437-444 | does the close call up to its wait |
| SocketArrays.ClientSockets.SocketReturned | cms/ncfsockt.c:421-428 | the entry of a new socket starts anew |
| SocketArrays.ClientSockets.AcceptReturned | cms/ncfsockt.c:1077 | an accepted socket's entry gets new flags only |
| HostLookup.LookupRoundTrip | java/src/dev/hawala/vm370/commproxy/socketapi/Level0SocketAPIHandler.java:362-448 | if everything found fits with the header, it is all transmitted and read back through the pointer table: all addresses in order, the canonical name of the first V4 host as the official name, and the other names in order as aliases |
| ResolvedNames.NamesAre | java/src/dev/hawala/vm370/commproxy/socketapi/Level0SocketAPIHandler.java:376-390 | the names are those of the V4 hosts, canonical or host name, each once |
| ResolvedNames.NamesInOrder | java/src/dev/hawala/vm370/commproxy/socketapi/Level0SocketAPIHandler.java:382-385 | they are in the order of their first occurrence, canonical name before host name |
| ResolvedNames.OfficialName | java/src/dev/hawala/vm370/commproxy/socketapi/Level0SocketAPIHandler.java:392 | the first one is the canonical name of the first V4 host |
| ResolvedNames.AddressesOfBoth | java/src/dev/hawala/vm370/commproxy/socketapi/Level0SocketAPIHandler.java:374-381 | the addresses of two lists of hosts are those of one behind those of the other |
| ResolvedNames.AddressesOfOne | java/src/dev/hawala/vm370/commproxy/socketapi/Level0SocketAPIHandler.java:377-381 | the address of a host is taken exactly if it is a V4 one |
| HostLookup.FittingIsMost | java/src/dev/hawala/vm370/commproxy/socketapi/Level0SocketAPIHandler.java:393-415 | nothing is chosen if four bytes or less remain behind the first name; otherwise as many addresses as fit and then names in order until one does not leave a byte |
| HostEntry.RoundTrip | cms/ncfsockt.c:247-286 | the client reads the kind and length of the addresses and exactly the addresses, name and aliases of any laid out entry with at most 126 addresses and aliases |
| HostEntry.TableHoldsIff | cms/ncfsockt.c:265-284 | exactly when both lists and their null pointers are inside the 128-entry table, with the wrapped unsigned room for aliases |
| HostLookup.GetHostent | java/src/dev/hawala/vm370/commproxy/socketapi/Level0SocketAPIHandler.java:362-448 | nothing, the laid out entry, or an overrun exactly when fewer than the 12 header bytes remain behind what was chosen |
| HostLookup.AllFitting | java/src/dev/hawala/vm370/commproxy/socketapi/Level0SocketAPIHandler.java:393-415 | addresses and names that fit with the header are all chosen |
| HostLookup.OverrunIff | java/src/dev/hawala/vm370/commproxy/socketapi/Level0SocketAPIHandler.java:393-415 | what is chosen runs over the buffer if and only if fewer than 12 bytes remain behind name, addresses and counted aliases, and then by 12 bytes at most |
| HostLookup.HeaderForgotten | java/src/dev/hawala/vm370/commproxy/socketapi/Level0SocketAPIHandler.java:362-415 | a lookup that finds 508 V4 addresses of a host with a name of four bytes lays out 2049 bytes into a buffer of 2048 |
| HostLookup.Collect | java/src/dev/hawala/vm370/commproxy/socketapi/Level0SocketAPIHandler.java:376-390 | collects the addresses and names that `NamesAre`, `NamesInOrder` and `AddressesOfBoth` describe, converted |
| HostLookup.CountAliases | java/src/dev/hawala/vm370/commproxy/socketapi/Level0SocketAPIHandler.java:403-415 | how many names fit, stopping at the first that does not |
| HostLookup.DoGetHost | cms/ncfsockt.c:242-286 | refuses an answer below 16 bytes, else builds name and null-terminated lists, or overruns the table exactly when they do not fit |
| HostLookup.PointToAddresses | cms/ncfsockt.c:269-277 | the address list, with at least one entry, ended by a null pointer |
| HostLookup.PointToAliases | cms/ncfsockt.c:280-284 | the alias list, ended by a null pointer, behind an unchanged address list |
| FtpTransfer.Upload.Store | cms/cmsftpd.c:1079-1130 | the records written are a function of the concatenated upload, whatever the pieces received |
| FtpTransfer.Upload.TakeByte | cms/cmsftpd.c:1088-1116 | one byte of the upload, binary and text |
| FtpTransfer.Upload.WriteRecord | cms/cmsftpd.c:942-976 | an empty record becomes a fill character, a fixed one is filled up, and it is the next record of the file |
| FtpTransfer.Upload.LastRecord | cms/cmsftpd.c:1120-1130 | the rest is the last record; an empty new file gets one record |
| FtpRecords.CutIsChunks | cms/cmsftpd.c:1087-1096 | a binary upload is cut into chunks of the record length |
| FtpRecords.CutIsLines | cms/cmsftpd.c:1097-1117 | a text upload is cut at line feeds and at the record length, without its carriage returns |
| FtpRecords.UploadFits | cms/cmsftpd.c:942-957 | no record is empty or beyond the record length, or one character if that is not positive, and fixed ones have exactly that length |
| FtpRecords.BinaryRoundTrip | cms/cmsftpd.c:1011-1024 | a non-empty binary upload comes back from a binary download, for fixed records with zeros up to whole records |
| FtpRecords.EmptyBinary | cms/cmsftpd.c:942-957 | an empty upload makes a new file of one record of zeros and adds nothing to an old one |
| FtpText.TextRoundTrip | cms/cmsftpd.c:911-937 | lines with CR LF ends, or none at all, come back unchanged from text upload and download if and only if each is shorter than a record, not empty, of characters that survive both translations, and does not end with a space unless it is just one, and for a new file there is at least one |
| FtpText.TextComesBackStripped | cms/cmsftpd.c:911-957 | any text of characters that survive comes back cut at the record length and without trailing spaces |
| FtpText.CutIffShort | cms/cmsftpd.c:1097-1117 | the records cut off a text are its lines if and only if each line is shorter than a record |
| FtpText.LineComesBack | cms/cmsftpd.c:911-957 | the record of one line is downloaded as that line if and only if the line is not empty, survives, and does not end with a space unless it is just one |
| FtpText.LineComesBackStripped | cms/cmsftpd.c:911-957 | a line of characters that survive comes back without its trailing spaces, down to one character, and an empty one as a space |
| FtpText.TextDetermines | cms/cmsftpd.c:716-722 | downloads of lines without line feeds differ whenever the lines do |
| FtpText.ExactLineGetsBlankLine | cms/cmsftpd.c:1100-1114 | a line of exactly the record length is followed by an empty record |
| FtpRecords.ChunksConserve | cms/cmsftpd.c:1087-1096 | the chunks together are the upload, and all but the last are full |
| FtpTransfer.Download.TransmitUnit | cms/cmsftpd.c:698-709 | packets sent plus the one being filled are all units in order; a unit above the packet length is cut |
| FtpTransfer.Download.TransmitEnd | cms/cmsftpd.c:734-740 | nothing is left behind |
| FtpTransfer.Download.Retrieve | cms/cmsftpd.c:1011-1024 | the packets are the file's records as units, none empty and none above the packet length |
| FtpTransfer.Download.ReadRecord | cms/cmsftpd.c:911-937 | for text the trailing blanks are dropped down to one character |
| FtpTransfer.Download.TransmitAsciiLine | cms/cmsftpd.c:716-722 | the text up to its null byte, translated, with CR LF |

## The rings of the inside proxy

cms/ioproxy.c is not stored as UTF-8, so the table cites the outside proxy's lines for what the two do together.
These members, the first ten of the class `InsideBuffers.Buffers`, model its own lines:

- `constructor` (cms/ioproxy.c, lines 238-256): all slots are free, in ring order, and nothing waits: the inside proxy that `ProxyLink.Start` has.
- `GetSlot` (cms/ioproxy.c, lines 262-284): the first slot of the ring of free ones, or none when only one is left.
- `FreeSlot` (cms/ioproxy.c, lines 288-296): the slot goes to the end of the ring.
- `Enqueue` (cms/ioproxy.c, lines 391-393): the slot goes to the end of the waiting ones.
- `NextRequestToSend` (cms/ioproxy.c, lines 429-440): the first waiting slot, or none.
- `HandleExt` (cms/ioproxy.c, lines 515-525): a client's request gets a slot and is announced when idle, as on values.
- `DeviceEnd` (cms/ioproxy.c, lines 1169-1189): the end of a write moves the state on.
- `AckRead` (cms/ioproxy.c, lines 959-976): an ACK lets the next request out, or is the end of a transfer.
- `DataRead` (cms/ioproxy.c, lines 1098-1136): a response is replied to the client in its slot, and the slot is freed.
- `EndReceivePacket` (cms/ioproxy.c, lines 910-1137): a record read does on the rings what it does on values.
- `LinkRuns.AcceptPlaces` (cms/ioproxy.c, lines 262-284): a slot taken from the ring holds no other request.
- `LinkRuns.DeliverPlaces` (cms/ioproxy.c, lines 288-296): a slot given back is free once.
- `LinkRuns.DeliverCounts` (cms/ioproxy.c, lines 1125-1131): a reply moves its request from those in work to those replied to.
- `LinkRuns.RoomForSlot` (cms/ioproxy.c, lines 288-296): the ring of free slots has room for each slot given back.
- `LinkTable.EndedAgrees` (cms/ioproxy.c, lines 1169-1189): the end of a write keeps to the combinations of the table.
- `ProxyLink.WriteEndsView` (cms/ioproxy.c, lines 1169-1189): on the two machines it does what the step of the table does.

## Left out

- Telnet negotiation, screen clearing, CP READ detection and the DIAL exchange: console scraping and timing; dialing is one step.
- `ProxyEngine` and `Connector` take any records from the host in any order; only `LinkRuns` puts the inside proxy in the host's place.
- Of the inside proxy: a second outside proxy that dials in (CLEAR, CP READ, rejecting all requests), the STAT dump, device errors, and the content of requests and responses, for which the link carries numbers.
- ResponseRecord.CodedArrives: user names with 0xFF, which is no character of a VM user name; their coded records may arrive or not.
- Progress under a scheduler: that a reply can still come is proved, and exactly when none can; not that it comes, which resets prevent, nor in what time.
- The pauses before some writes (java/src/dev/hawala/vm370/commproxy/Dialed3270HostConnector.java:860-869), which make collisions rarer; they only delay a step.
- `slotsInUse`, `lastProcessedId` and the dumped state: debugging data.
- The content of a request while its object is handed around: `Connector` numbers responses instead; `HostReader` and `ResponseRecord` read and write the content.
- A broken connection in the middle of a record or transmission, which loses the object in hand.
- `dropRestOfRecord` on content with escaped 0xFF, and the binary block writer with a start other than 0, which no call uses.
- Communication failures inside the stream functions: after a failed fetch the old block length is used again.
- BulkStream.BulkStream.Ngetstr: what a line is, is stated for file-backed sources, which report their end with an empty block; for other sources only that buffers and flags stay in order.
- Reads that do not wait (`noWait`), the count queries of sources, and stream services other than files.
- `ncf_031`: waiting without a timeout is the scan of `ncf_037` whose timer never runs out; called with no filter it hands out the newest request unconditionally and is not modelled.
- Message handlers of the client (SMSG) and the end of the client (`ncf_002`), which frees all blocks.
- `recv`, `send` and `select` on sockets with their left-over chunks, non-blocking `connect`, and the contents of socket addresses: the socket tables only need who owns a number.
- SocketTables.DescriptorsHold: one connection; the initialisation after a reconnect that drops all sockets is not modelled, and requests to and from the proxy arrive.
- SocketArrays.ClientSockets.AcceptReturned: an accepted descriptor keeps the receive handle its number last had; what later calls make of that is not modelled.
- HostLookup.Collect: the resolver and the conversion of names are parameters.
- HostLookup.DoGetHost: what memory an overrun of the pointer table touches; that it happens is a result of its own.
- FtpTransfer.Upload.Store: writing records and the network succeed; opening files, parsing paths, erasing and replies on the control connection are left out.
- Directory listings, path parsing, host file services, properties, logging, error texts, command lines, assembler glue and test programs.
