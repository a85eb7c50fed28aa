# A Dafny model of dnsperf and resperf

dnsperf and resperf send DNS queries at a name server and measure the answers. This project models the
parts of them whose correctness spans whole runs, every way a stream can be cut into reads and writes, or
every 64-bit value, and proves what those parts keep. `dafny verify dfyconfig.toml` checks all of it.

Each part has a value-level description (datatypes and functions) about which the theorems are stated.
Where the C code edits memory in place there is also a class or a method with loops that is proved to do
exactly what the description says.

| part | files | main results |
|---|---|---|
| hg64 histograms | `CInt`, `Hg64Keys`, `Hg64`, `Hg64Merge`, `Hg64Race` | the buckets partition all 64-bit values; merging adds every count exactly when the target is no finer, and conserves the total if and only if every count divides evenly; merging a difference back restores the original; racing threads lose no call |
| stream transports | `Framing`, `FrameSender`, `FrameBuffers`, `Memory`, `TcpReceive`, `TcpSpec`, `TcpSocket`, `TcpHandshake`, `DotSpec`, `DotSocket` | every cutting of a stream into reads delivers its frames in order; every connection carries complete frames, over TLS always and over TCP if and only if it was not taken up in the middle of a message, which the report of a lost connection causes unless the very next write fails; the messages carried are those handed over, less the ones given up; the two TCP threads agree on which connection was lost |
| dnsperf's queries | `QueryLists`, `Timeouts`, `QueryProtocol`, `QueryTimeouts`, `RateLimit` | the linked lists refine sequences; in every interleaving the IDs stay partitioned, the counters account for every query and each counts what it says; the limit on outstanding queries; exactly when timing out takes the expired queries and no others; the overall rate limit |
| input reader | `InputFormats`, `InputRuns`, `Datafile` | whatever sizes reads return, the reader hands out the complete items of the file in order, `maxruns` times and then the end; exactly when it reads an unfinished last line; cached replay equals reading again |
| DNS messages | `DnsName`, `NameWriter`, `WireBuffer`, `MessageFormat`, `RequestSpec`, `RequestLines`, `RequestWriter`, `TsigAlgorithms` | a name is accepted if and only if its labels are legal, and then becomes their wire form; printing and parsing round-trips; every request that is built reads back as its line asks, with OPT and TSIG in place, and never overruns its buffer |
| resperf | `ResperfSlots`, `ResperfSpec`, `ResperfRuns`, `Resperf` | counters, lists and slots stay consistent in every run, and the time buckets and the order of the outstanding list exactly as long as no delayed query is taken for sent too early and none overtakes another; exactly when retiring takes the expired queries and no others |

## Where the code differs from what one would expect

The model follows the code. In these places that matters:

- `\DDD` in a name is read in base 7 and not in base 10 (src/dns.c:120): `EscapeIsDecimalIff`.
- A name can be 256 octets long, one more than section 2.3.4 of RFC 1035 allows, since the limit of 255 does not count the root (src/dns.c:56): `NameBeyondLimit`, `WithinLimitIff`.
- The check for space in a name's target counts characters, but a name can take two bytes more (src/dns.c:60): `NameOutgrowsItsText`. The callers leave enough room, as `BuildRequest` shows.
- A TSIG key with an empty name produces a record without an owner: `TsigNeedsName`.
- Merging into a finer histogram compares the remainder with an absolute key (src/ext/hg64.c:285) and so loses counts: `EventLostIff`, `FinerMergeLosesCount`, `ConservesIffDivides`.
- A TCP socket told of a lost connection in the middle of a message goes on with the rest of the message on the new connection (src/net_tcp.c:284-289): `TornExample`, `TornIffTears`, `ConnectionsFramedIff`.
- With one query per connection, TCP can complete two on one connection, since a message flushed when the connection comes up is not checked against the limit (src/net_tcp.c:362-386): `LimitOfOneExceeded`.
- An empty frame at the very end of a stream is delivered only when another byte follows (src/net_tcp.c:189): `DeliversAll`. A caller cannot tell an empty message from a closed connection, as `recv` returns 0 for both (src/net_tcp.c:187-219).
- An unfinished last line is dropped unless the file is cached, which a pipe never is, and a line that does not fit the buffer ends the input (src/datafile.c:235-241): `UnfinishedIffCached`, `DropsUnfinished`.
- A query of dnsperf that could not be sent may already have been counted as timed out or answered (src/dnsperf.c:1179-1186). The model counts these in `lost`: `QueriesAccountedFor`, `TakeExceedsIff`, `LimitExceededAfterLoss`.
- `process_timeouts` looks at the tail before it takes the lock and does not look again (src/dnsperf.c:1179-1186), so it can time out a query that the sender has only just taken: `RetiresExactlyIff` in `QueryTimeouts`, `UnsentQueryRetired`.
- `do_one_line` takes every answer of sockready but -1 to mean that a delayed query was sent (src/resperf.c:602). If it goes out later it is stamped again behind the others (src/resperf.c:514), so an expired query can stay, and until then its bucket has not counted it: `ExpiredQueryStays` with `OrderIffNoneOvertakes` and `RetiresExactlyIff` in `ResperfRuns`, `MissingFromItsBucket` with `TalliedIffNotTooEarly` and `BucketsAddUpIff`.
- resperf still sends one query in the turn in which it has decided to stop for having fallen behind (src/resperf.c:882-889): `SendIfDue`.
- resperf compares the signed number of queries to send with an unsigned limit (src/resperf.c:882). One line can complete a delayed query and send another, and having so sent more than was scheduled it ends the sending as if it had fallen behind: `FellBehindIff`, `AheadOfSchedule`.

## Assumptions

Locked regions and atomic operations are atomic steps that all threads see in one order. So is the look at
the tail before `process_timeouts` takes its lock, which in the program reads the tail and then twice its
stamp (src/dnsperf.c:1179-1180). New connections
have descriptors not used before. The clock does not go backwards where a theorem speaks of time stamps.
Counters that cannot reach their limit in practice (queries sent, bytes read, runs of the input) are
unbounded; wrap-around is modelled in hg64, in resperf's bucket search and in all wire fields. System
calls, TLS, HMAC, the query type table and the clock are arguments, so theorems hold for whatever they do.
DoT calls are atomic, as in single-threaded resperf.

## Model

| member | source | states |
|---|---|---|
| `Hg64Keys.ValueParts` | src/ext/hg64.c:147-161 | the branchless `value_to_key` computes exponent and mantissa of the value, for every precision and every 64-bit value; no shift or subtraction wraps |
| `Hg64Keys.KeyParts` | src/ext/hg64.c:121-145 | `key_to_minval` and `key_to_maxval` are the ends of the span of that exponent and mantissa |
| `Hg64Keys.ValueHasBucket` | src/ext/hg64.c:79-82 | every value has a key below KEYS |
| `Hg64Keys.BucketIsPreimage` | src/ext/hg64.c:121-161 | a value maps to a key if and only if it lies between the key's two bounds |
| `Hg64Keys.BucketsPartition` | src/ext/hg64.c:121-145 | the first bucket starts at 0, each next one where the last ended, and the last ends at 2^64-1 |
| `Hg64Keys.BucketsAscend` | src/ext/hg64.c:121-145 | a smaller key's bucket lies below a greater key's |
| `Hg64Keys.KeyMonotone` | src/ext/hg64.c:147-161 | `value_to_key` is monotone |
| `Hg64Keys.EndsMapBack` | src/ext/hg64.c:121-161 | both ends of a bucket map back to its key |
| `Hg64Keys.BucketPrecision` | src/ext/hg64.c:121-145 | a bucket is a single value or narrower than its lower bound divided by 2^sigbits |
| `Hg64.Histogram.constructor` | src/ext/hg64.c:92-108 | a new histogram counts nothing |
| `Hg64.Histogram.AddKeyCount` | src/ext/hg64.c:163-213 | one count grows by the increment modulo 2^64 and no other changes, whether or not the bin existed |
| `Hg64.Histogram.Inc` | src/ext/hg64.c:217-220 | the bucket that holds the value gains one |
| `Hg64.Histogram.Next` | src/ext/hg64.c:235-243 | the next key is greater, and every key skipped has count 0 |
| `Hg64.Histogram.MinKey` | src/ext/hg64.c:304-314 | the smallest key with a count, or 0 if there is none |
| `Hg64.Histogram.MaxKey` | src/ext/hg64.c:316-327 | the greatest key with a count, or 0 if there is none |
| `Hg64.EmptyBin` | src/ext/hg64.c:235-243 | skipping an absent bin skips only counts of 0 and stays within the keys |
| `Hg64Merge.Merge` | src/ext/hg64.c:270-289 | the target becomes the fold of all the source's buckets, each dealt over the target's buckets it overlaps |
| `Hg64Merge.MergeOne` | src/ext/hg64.c:279-288 | the inner loop deals one source count over its target keys |
| `Hg64Merge.DealCovers` | src/ext/hg64.c:276-279 | a source count is dealt to exactly the target keys whose buckets overlap its own |
| `Hg64Merge.Diff` | src/ext/hg64.c:291-302 | every count of `diff` grows by a's count less b's, modulo 2^64 |
| `Hg64Merge.CoarserMerge` | src/ext/hg64.c:270-289 | if the target is no finer, each of its buckets gains exactly the counts of the source buckets it encloses |
| `Hg64Merge.MergeUndoesDiff` | src/ext/hg64.c:270-302 | for b at most a, merging a fresh difference of a and b into b gives a |
| `Hg64Spread.MergeTotal` | src/ext/hg64.c:270-289 | the total after a merge, up to 64 bits, is both totals together less what the remainder rule drops |
| `Hg64Merge.ConservesIffDivides` | src/ext/hg64.c:280-287 | a merge conserves the total if and only if every source count divides evenly over its target buckets |
| `Hg64Merge.EventLostIff` | src/ext/hg64.c:279-288 | for any two precisions and any target, merging a single event changes nothing if and only if its bucket overlaps several target keys |
| `Hg64Merge.FinerMergeLosesCount` | src/ext/hg64.c:285-286 | one event of value 4 in a histogram of 1 bit, merged into any histogram of 2 bits, leaves that histogram as it was |
| `Hg64Race.StepKeepsInv` | src/ext/hg64.c:163-213 | every step of any number of threads keeps the bins, the threads' private blocks and the history of increments consistent |
| `Hg64Race.RunKeepsInv` | src/ext/hg64.c:163-213 | so does every interleaving |
| `Hg64Race.NoCountLost` | src/ext/hg64.c:163-213 | in every interleaving each bin is installed at most once and the table is that of the completed increments done one after the other |
| `Hg64Race.CallsAccountedFor` | src/ext/hg64.c:163-213 | in every interleaving the increments that were called for are those made and those that a thread is still about to make |
| `Hg64Race.EveryCallCounted` | src/ext/hg64.c:205-213 | once no thread is inside, every key counts the sum of the increments of all calls made for it, modulo 2^64 |
| `Hg64Race.BinsNeverMove` | src/ext/hg64.c:163-185 | an installed bin pointer never changes |
| `Framing.StreamPrefix` | src/net_tcp.c:189-212 | length-prefixed framing is unambiguous: complete frames at the start of a stream are the stream's first frames |
| `FrameReceiver.ReceiveKeepsInv` | src/net_tcp.c:153-219 | a receive call keeps: delivered frames and buffered bytes are what has arrived, and `have_more` holds if and only if a complete frame is buffered |
| `FrameReceiver.DeliversOneIff` | src/net_tcp.c:188-212 | a call delivers the first frame if and only if it is complete and at least three bytes are there, and otherwise nothing |
| `FrameReceiver.RoomToRead` | src/net.h:31 | when no frame waits there is room in the buffer, so a read of 0 bytes means closed |
| `FrameReceiver.CallsKeepInv` | src/net_tcp.c:153-219 | every sequence of calls keeps it, however the stream is cut |
| `FrameReceiver.DeliversInOrder` | src/net_tcp.c:189-219 | the calls so far have delivered the first frames of the stream in order, and the buffer holds the start of the rest |
| `FrameReceiver.DeliversAll` | src/net_dot.c:209-239 | once the stream has arrived and no frame waits, all of its frames are delivered if and only if there are none or the last is not empty; otherwise all but the last |
| `FrameBuffers.RecvBuffer.TakeFrame` | src/net_tcp.c:195-218 | copying out a frame and shifting the buffer delivers the first frame, min(len, dnslen) bytes of it to the caller |
| `FrameBuffers.CopiedAt` | src/net_tcp.c:201 | the caller has the frame as far as it fits, and the rest of its buffer unchanged |
| `FrameBuffers.RecvBuffer.Receive` | src/net_tcp.c:188-218 | appending a read's bytes in place refines the receive step |
| `FrameBuffers.SendBuffer.Load` | src/net_tcp.c:223-229 | the send buffer holds the length and as much of the message as fits |
| `FrameSender.LoadHolds` | src/net_tcp.c:223-229 | the two length bytes, high byte first, and the first min(len, 65535) bytes of the message |
| `FrameBuffers.SendBuffer.Wrote` | src/net_tcp.c:312-322 | a partial write advances `sending`, and the last one completes the frame |
| `TcpReceive.Receiver.Recv` | src/net_tcp.c:153-219 | a call on a new descriptor starts from an empty buffer, otherwise continues; a loss is reported for the descriptor it happened on; the caller gets exactly the next frame and its length, or nothing and 0 for a closed connection, -1 otherwise |
| `FrameSender.WriteKeepsInv` | src/net_dot.c:242-310 | a write of any length keeps the connection at complete frames followed by the written part of the send buffer, and completes at most one frame |
| `FrameSender.WriteKeepsKept` | src/net_tcp.c:291-322 | on any connection a write keeps the books: what was taken over in the middle of a message stays short of the messages it should carry |
| `FrameSender.RenewKeepsInv` | src/net_dot.c:141-153 | a new connection that drops the partial message starts framed |
| `FrameSender.FramedIffWhole` | src/net_tcp.c:284-289 | a connection carries complete frames and the written part of the next if and only if it was not taken up in the middle of a message |
| `FrameSender.TornIsNotFramed` | src/net_tcp.c:284-289 | a new connection that keeps a partial message is not framed |
| `FrameSender.TornStaysTorn` | src/net_tcp.c:221-322 | and no sequence of writes and further messages on it repairs it |
| `FrameSender.LeftIsFramed` | src/net_dot.c:141-153 | the connection left behind carries complete frames and at most the start of one more |
| `FrameSender.LeftFramedIff` | src/net_tcp.c:284-289 | a connection that was left carried complete frames and at most the start of one more if and only if it was not written on after being taken up in the middle of a message |
| `DotSocket.Socket.Reconnect` | src/net_dot.c:141-153 | refines the description: both buffers and all flags start over |
| `DotSocket.Socket.Recv` | src/net_dot.c:155-239 | refines the description for every outcome of the read, and delivers the next frame to the caller or leaves the caller's buffer alone |
| `DotSocket.Socket.Sendto` | src/net_dot.c:242-310 | refines the description for every outcome of the write |
| `DotSocket.Socket.Sockready` | src/net_dot.c:323-449 | refines the description: flushing, the limit per connection, setting up |
| `DotRuns.CallKeepsInv` | src/net_dot.c:141-449 | every call, with every outcome of the system calls in it, keeps sending and receiving framed and the limit |
| `DotRuns.RunKeepsInv` | src/net_dot.c:141-449 | so does every sequence of calls with sendto only after sockready returned 1 |
| `DotRuns.ConnectionsFramed` | src/net_dot.c:141-449 | the open connection carries complete frames followed by exactly the written part of sendbuf, every earlier one complete frames and at most a cut one, and none completes more queries than `num_queries_per_conn` |
| `DotRuns.CallBooks` | src/net_dot.c:141-449 | a call adds the message it is handed to those carried unless it refuses it, and gives one up if and only if it finds the connection lost in the middle of it |
| `DotRuns.CarriesMessages` | src/net_dot.c:141-449 | in every run the messages completed on all connections in order, and the one under way, are those handed to sendto, cut to 65535 bytes, less the ones given up |
| `DotRuns.CallOutput` | src/net_dot.c:242-376 | the bytes that SSL_write reports as written are on the wire, and no others |
| `DotRuns.SockreadyAnswers` | src/net_dot.c:323-449 | 1 if and only if a message can be sent now, -1 if and only if it gave up waiting; a new connection if and only if one is due, the old one is lost or it is drained at the limit; ready if and only if it stays so or comes up and TLS with it |
| `DotRuns.SetupFails` | src/net_dot.c:397-449 | a reconnect is left to the next call if and only if the connection or TLS on it fails to come up |
| `DotRuns.StaysWritable` | src/net_dot.c:397-425 | a connection that has become writable is not waited for again |
| `DotRuns.SendtoAnswers` | src/net_dot.c:242-310 | success if and only if the message went out whole at once |
| `DotRuns.LockKept` | src/net_dot.c:293-295 | the lock is kept if and only if a sendto fails within TLS |
| `DotRuns.ReceivedCounts` | src/net_dot.c:155-239 | with a limit, the responses counted are the messages delivered from the open connection |
| `TcpSocket.Sender.Reconnect` | src/net_tcp.c:284-289 | refines the description of taking up a new descriptor |
| `TcpSocket.Sender.Sockready` | src/net_tcp.c:281-393 | refines the description for every outcome: reports, partial writes, the limit, setting up |
| `TcpSocket.Sender.ConnCont` | src/net_tcp.c:336-392 | refines the part after conn_cont |
| `TcpSocket.Sender.Sendto` | src/net_tcp.c:221-269 | refines the description for every outcome of the write |
| `TcpRuns.CallKeepsInv` | src/net_tcp.c:221-393 | every call, with every outcome of the system calls and every report, keeps the books on all connections and the limit |
| `TcpRuns.RunKeepsInv` | src/net_tcp.c:221-393 | so does every sequence of calls with sendto only after sockready returned 1 |
| `TcpRuns.ConnectionsFramedIff` | src/net_tcp.c:221-393 | in every run each connection, open or left, is framed if and only if it was not taken up, or written on after being taken up, in the middle of a message; and none completes more than the limit of queries, or 2 for a limit of 1 |
| `TcpRuns.TornIffTears` | src/net_tcp.c:283-289 | while all connections are whole, a call leaves them so if and only if it is not a sockready that is told of the loss in the middle of a message without a failing write at once after it |
| `TcpRuns.FramedIffNotTorn` | src/net_tcp.c:283-289 | so from there exactly such a call leaves the open connection unframed |
| `TcpRuns.ConnectionsFramed` | src/net_tcp.c:221-393 | in every run without such a call the open connection carries complete frames followed by exactly the written part of sendbuf, and every earlier one complete frames and at most a cut one |
| `TcpRuns.CallBooks` | src/net_tcp.c:221-393 | a call adds the message it is handed to those carried unless it refuses it, and gives one up if and only if its write fails in the middle of it |
| `TcpRuns.CarriesMessages` | src/net_tcp.c:221-393 | in every run the messages completed on all connections in order, and the one under way, are those handed to sendto, cut to 65535 bytes, less the ones given up |
| `TcpRuns.CallOutput` | src/net_tcp.c:241-386 | the bytes that sendto reports as written are on the wire, and no others |
| `TcpRuns.SockreadyAnswers` | src/net_tcp.c:281-393 | 1 if and only if a message can be sent now, not held against the limit on a connection that has just come up; -1 if and only if it gave up waiting; ready if and only if it stays so, comes up or was so at once |
| `TcpRuns.SendtoAnswers` | src/net_tcp.c:221-269 | success if and only if the message went out whole at once |
| `TcpRuns.CallReconnects` | src/net_tcp.c:232-386 | the new connections a call opens, and exactly when it leaves a reconnect to the next call |
| `TcpRuns.TornExample` | src/net_tcp.c:284-289 | a run after which a connection has completed a message whose first byte went to another connection |
| `TcpRuns.LimitOfOneExceeded` | src/net_tcp.c:362-386 | a run after which one connection completed two queries under a limit of 1 |
| `TcpHandshake.StepKeepsInv` | src/net_tcp.c:158-187 | every step of the sending and the receiving thread keeps descriptors, buffered bytes and reports consistent |
| `TcpHandshake.RunKeepsInv` | src/net_tcp.c:39-64 | so does every interleaving |
| `TcpHandshake.ReconnectIffReported` | src/net_tcp.c:232-239 | in every interleaving the sender finds a reason to reconnect if and only if the current connection was reported: a late report on an old one never counts |
| `TcpHandshake.ToldByTheSteps` | src/net_tcp.c:158-187 | in every interleaving the sender must reconnect if and only if since its last reconnect the receiver has loaded the descriptor and reported it, and the receiver holds the bytes read since it took the descriptor up, less those handed out |
| `TcpHandshake.BufferedFromOneConnection` | src/net_tcp.c:158-172 | all buffered bytes come from the connection the receiver works on |
| `TcpHandshake.ReportStaysVisible` | src/net_tcp.c:283-289 | a report stays visible until the sender reconnects |
| `QueryLists.QueryList.Append` | src/list.h:49-59 | appending at the tail is appending to the sequence; all links stay consistent |
| `QueryLists.QueryList.Prepend` | src/list.h:60-70 | prepending at the head is prepending to the sequence |
| `QueryLists.QueryList.Unlink` | src/list.h:71-89 | unlinking any node removes it from the sequence and clears its links; no assertion fails |
| `QueryLists.ThreadQueries.constructor` | src/dnsperf.c:1540-1544 | the unused list holds exactly the queries of the array, in the order of the array |
| `QueryLists.ThreadQueries.QueryMove` | src/dnsperf.c:817-835 | a move on the two linked lists refines the move on two sequences over one pool, and `q->list` names the right list |
| `Lists.MoveKeepsPartition` | src/dnsperf.c:817-835 | every move keeps the two lists a partition of the pool |
| `QueryProtocol.StepKeepsInv` | src/dnsperf.c:1008-1148 | every step of the sender, the receiver and the main thread keeps the partition, the marking of unstamped queries and the balance of the counters |
| `QueryProtocol.RunKeepsInv` | src/dnsperf.c:1170-1203 | so does every interleaving |
| `QueryProtocol.QueriesAccountedFor` | src/dnsperf.c:1309-1367 | in every interleaving sent queries, and those counted without being sent, are those matched, timed out, cancelled or outstanding and not in the sender's hands |
| `QueryProtocol.CountersCount` | src/dnsperf.c:1118-1353 | in every interleaving `num_sent` is the number of sends counted, `num_completed` with the matches not yet counted that of responses matched, `num_timedout` that of queries timed out and `num_interrupted` that of sent queries cancelled |
| `QueryProtocol.WhereQueriesGo` | src/dnsperf.c:817-835 | a query is taken from the head of the unused list, one that was not sent goes back there, and all others go to the end |
| `QueryProtocol.StampsAre` | src/dnsperf.c:1020-1148 | the stamp of every query after every step |
| `QueryProtocol.FirstAnswered` | src/dnsperf.c:1309-1353 | an interleaving in which a query is sent, answered and counted so |
| `QueryProtocol.FirstCancelled` | src/dnsperf.c:1439-1457 | an interleaving in which a sent query is cancelled and counted so |
| `QueryProtocol.LastNotCounted` | src/dnsperf.c:1062-1068 | an interleaving in which a query taken when the input ends is cancelled and not counted |
| `QueryProtocol.LimitHolds` | src/dnsperf.c:1011-1022 | outstanding queries never exceed `max_outstanding` by more than the queries counted without being sent, and an empty unused list is met only if those exceed the spare IDs; without any, neither happens |
| `QueryProtocol.TakeExceedsIff` | src/dnsperf.c:1011-1022 | taking a query goes beyond the limit, or finds the unused list empty, if and only if the queries counted without being sent make up for what the counters leave to the limit, or to the number of IDs |
| `QueryProtocol.FailedSendTimedOut` | src/dnsperf.c:1179-1186 | an interleaving in which a query that was never sent is counted as timed out |
| `QueryProtocol.LimitExceededAfterLoss` | src/dnsperf.c:837-845 | and after which two queries are outstanding under a limit of one |
| `QueryProtocol.StepKeepsOrdered` | src/dnsperf.c:1114 | without delayed sends and with a clock that does not go back, every step keeps the outstanding list newest first, an unstamped query only at its head |
| `QueryProtocol.RunKeepsOrdered` | src/dnsperf.c:1020-1022 | so does every interleaving |
| `QueryProtocol.InitOrdered` | src/dnsperf.c:1532-1544 | setup establishes it |
| `Timeouts.ExpiredIff` | src/dnsperf.c:1180 | a query has expired if and only if the timeout has passed since its stamp |
| `Timeouts.TailThenRest` | src/dnsperf.c:1185-1200 | taking off an expired tail and going on while the tail has expired takes exactly the expired queries if and only if no expired query is ahead of one that has not expired |
| `QueryTimeouts.RunKeepsSeen` | src/dnsperf.c:1008-1148 | in every interleaving the query in the sender's hands, if it is outstanding, is the head of that list, and the one that the receiver saw before locking is still the tail or is the next to be taken |
| `QueryTimeouts.ProcessTimeouts` | src/dnsperf.c:1183-1202 | the do-while loop, whose first move is unconditional, does the steps of the protocol up to the unlocking |
| `QueryTimeouts.RetiresExactlyIff` | src/dnsperf.c:1170-1203 | in every interleaving from the start, with delayed sends or without, the locked loop retires and counts exactly the expired queries if and only if the query that was seen is still outstanding and still expired once the lock is taken, and no expired query is ahead of one that has not expired |
| `QueryTimeouts.SteadyRetiresExactlyIff` | src/dnsperf.c:1170-1203 | without delayed sends and with a clock that does not go back, the last of these always holds |
| `QueryTimeouts.UnsentQueryRetired` | src/dnsperf.c:1179-1186 | an interleaving in which it times out a query that the sender has only just taken |
| `QueryTimeouts.RestampedStillExact` | src/dnsperf.c:1179-1186 | an interleaving in which the query that was seen was given back and sent anew, and the loop is exact all the same |
| `RateLimit.SharesSumToTotal` | src/dnsperf.c:1462-1477 | the threads' shares add up to the total |
| `RateLimit.EveryShareIsPositive` | src/dnsperf.c:764-779 | after the two clamps every thread's share of the rate is positive, so none is unlimited |
| `RateLimit.ThreadsIsLeast` | src/dnsperf.c:764-779 | the number of threads is the least of those asked for, the clients and the rate |
| `RateLimit.SharesAreEven` | src/dnsperf.c:1462-1477 | the first threads have the larger shares, by at most one |
| `RateLimit.RunKeepsInv` | src/dnsperf.c:957-1006 | every sequence of decisions, sends and clock readings keeps the slice within the rate |
| `RateLimit.WaitsNeverWrap` | src/dnsperf.c:965-1004 | no wait is computed by a subtraction that wraps |
| `RateLimit.TurnIff` | src/dnsperf.c:957-1004 | a turn is given if and only if a second begins, or its queries are not all sent and as many steps of 1/rate have passed in it as turns were given; otherwise the wait is for exactly that |
| `RateLimit.BeginsWithATurn` | src/dnsperf.c:928-931 | a thread begins with a turn |
| `RateLimit.ThreadRate` | src/dnsperf.c:957-1006 | a thread has sent at most its rate for each second begun |
| `RateLimit.OverallRate` | src/dnsperf.c:957-1006 | all threads together have sent at most the rate times the seconds begun |
| `TextFormat.LineOfPrefix` | src/datafile.c:226-248 | a line that ends within what is buffered is the same line in the whole file |
| `TextFormat.LineEnds` | src/datafile.c:226-228 | a line ends at the first newline or NUL byte, or with the input |
| `TextFormat.LinesOfText` | src/datafile.c:219-259 | from any list of lines written with newlines, those that are neither empty nor begin with a semicolon are read, in order |
| `TextFormat.LinesAfterSkipped` | src/datafile.c:250-259 | passing over empty lines and comments loses no line, for any content |
| `WireFormat.BlobsOfStream` | src/datafile.c:166-216 | the blobs of what was written as a list are that list, with nothing left over |
| `WireFormat.StreamOfBlobs` | src/datafile.c:166-216 | any content is the stream of its complete blobs followed by something that starts with none |
| `WireFormat.CallsGiveBlobs` | src/datafile.c:166-216 | successive reads give the complete blobs, then the end if nothing is left over and an error for ever if something is |
| `WireFormat.CallsAt` | src/datafile.c:166-216 | so does the list of the first k outcomes, place by place |
| `WireFormat.ReadsBack` | src/datafile.c:166-216 | a list of blobs of 0 to 65535 bytes is read back as that list |
| `Datafile.Datafile.constructor` | src/datafile.c:39-83 | the reader starts before the first byte |
| `Datafile.Datafile.ReadMore` | src/datafile.c:126-162 | for every length read, compaction and reading lose no byte and repeat none; end of file is reported only at the end or with a full buffer |
| `Datafile.Datafile.CachedIsWhole` | src/datafile.c:155-159 | a cached buffer holds the whole file from its start |
| `Datafile.Datafile.Reopen` | src/datafile.c:112-124 | what is to be read is the whole file again, cached or not |
| `Datafile.Datafile.Fill` | src/datafile.c:171-211 | the loops of `read_one_blob` never ask for zero bytes, so end of file means that the blob is incomplete |
| `Datafile.Datafile.ReadOneBlob` | src/datafile.c:166-216 | one call takes exactly the first blob, or reports the end or an incomplete blob and takes nothing; it fails, and takes nothing, if and only if a read fails |
| `Datafile.Datafile.ReadOneLine` | src/datafile.c:219-268 | one call takes exactly the first line that is neither empty nor a comment; an unfinished last line is taken only if cached; a line that does not fit ends the input; it fails if and only if a read fails |
| `Datafile.UnfinishedIffCached` | src/datafile.c:235-247 | a read that does not fail gives an unfinished last line if and only if the file is cached, and otherwise the end |
| `Datafile.Datafile.Next` | src/datafile.c:270-318 | for any content: at `maxruns` the end; otherwise one read, and if that meets the end of a run another from the start of the file when one is due; results, run count and position are those of these reads, which see a cached file only if it is a regular one that fits the buffer; a file without any data is reported as invalid; the call fails if and only if a read fails |
| `Datafile.NextIsDone` | src/datafile.c:270-318 | on complete items, and on any text that is never cached, such a call does what the abstract sequence of runs does; a failed read loses nothing |
| `Datafile.Datafile.NextMany` | src/datafile.c:270-318 | for every k and whatever sizes reads return, k successive calls on a new reader give the first outcomes of the abstract sequence, all k of them but for as many as reads fail; for complete items, and for any text from a pipe or a file larger than the buffer |
| `Datafile.DropsUnfinished` | src/datafile.c:235-241 | for every line, every unfinished rest and every k, k calls on a new reader of both that never caches give the line once and then the end, but for as many as reads fail |
| `Datafile.Datafile.ReadBlobs` | src/datafile.c:166-216 | for any content, k successive reads give the complete blobs in order, then the end or an error, but for as many as reads fail |
| `InputRuns.StepTakesNext` | src/datafile.c:270-318 | each call takes the next of the items still to come, over all runs |
| `InputRuns.RewoundGoesOn` | src/datafile.c:289-296 | a read that fails after rewinding leaves the next call where it would have been |
| `InputRuns.RunsThrough` | src/datafile.c:270-318 | the calls give the items in order exactly `maxruns` times and then the end for ever |
| `InputRuns.RunsForEver` | src/datafile.c:270-318 | without a limit call k gives the item k modulo their number |
| `InputRuns.NothingToRead` | src/datafile.c:283-286 | a file without items is reported as invalid for ever |
| `InputRuns.CallsRunThrough` | src/datafile.c:270-318 | so does the list of the first k outcomes, place by place: `maxruns` times the number of items of them are items |
| `WireBuffer.Buffer.PutMem` | src/buffer.h:65-70 | bytes are appended, provided they fit |
| `WireBuffer.Buffer.PutUint16` | src/buffer.h:82-91 | the two bytes of the truncated value are appended, high byte first |
| `WireBuffer.Buffer.PutUint32` | src/buffer.h:93-104 | the four bytes of the truncated value are appended, high byte first |
| `WireBuffer.Uint16` | src/buffer.h:82-91 | the two bytes are the value, if it fits 16 bits |
| `WireBuffer.Uint32Is` | src/buffer.h:93-104 | the four bytes are the value, if it fits 32 bits |
| `DnsName.EscapeIsDecimalIff` | src/dns.c:112-125 | `\DDD` is read as section 5.1 of RFC 1035 says if and only if it is 000 to 006 |
| `DnsName.EscapeIsSeptal` | src/dns.c:115-121 | `\DDD` is the longest run of digits below 7 at its front, read in base 7 |
| `DnsName.EscapesRead` | src/dns.c:112-125 | a backslash and three digits are one octet, a backslash and anything else that character |
| `DnsName.ScanIsTokens` | src/dns.c:65-89 | scanning a label agrees with reading the string as octets and unescaped dots |
| `DnsName.EmitLength` | src/dns.c:53-149 | however a call ends it has appended at most len+2 and at most 256 bytes |
| `DnsName.NameIff` | src/dns.c:53-149 | a non-empty string is accepted if and only if its escapes are complete and its labels, split at unescaped dots, have 1 to 63 octets and take at most 255 in all; then the bytes are their wire form |
| `DnsName.WithinLimitIff` | src/dns.c:56 | an accepted name has at most the 255 octets of section 2.3.4 of RFC 1035 if and only if its labels with their lengths take at most 254 |
| `DnsName.NameOutgrowsItsText` | src/dns.c:60-62 | one character can need three bytes |
| `DnsName.ParsesWhatPrints` | src/dns.c:53-149 | every legal list of labels, printed with dots and backslashes escaped, parses to its wire form |
| `DnsName.NameBeyondLimit` | src/dns.c:56 | three labels of 63 octets and one of 62 are accepted, as a name of 256 octets |
| `NameWriter.ScanOnce` | src/dns.c:65-89 | the first scan's loop finds the length and end of the label, or a bad escape |
| `NameWriter.CopyQuoted` | src/dns.c:110-132 | the second scan's loop agrees with the first: it appends as many octets, up to one above 255, and ends at the same place |
| `NameWriter.PutName` | src/dns.c:64-148 | the outer loop appends exactly what the description of the whole string says |
| `NameWriter.FromString` | src/dns.c:53-149 | no space if and only if there are fewer bytes than characters, with nothing written; otherwise success or failure and the bytes as described |
| `MessageFormat.ReadNameBack` | src/dns.c:109-142 | a reader of section 3.1 of RFC 1035 gets the labels back from the wire form, whatever follows |
| `MessageFormat.ReadBodyBack` | src/tsig.c:331-334 | a reader of section 4.1.3 of RFC 1035 gets type, class, TTL and data back |
| `MessageFormat.AddsRecord` | src/edns.c:155 | a record put at the end of any readable message with ARCOUNT raised is read after the others |
| `RequestLines.LineHas` | src/dns.c:183-194 | in a line of a name, white space and a type text, followed by nothing or what ends a word, the first part is the name and the third the type |
| `RequestLines.LineSplits` | src/dns.c:183-194 | every line in which both are found is made of such parts |
| `RequestLines.ResultOfLine` | src/dns.c:177-217 | for such a line: no space if and only if fewer bytes are free than the name has characters, else success if and only if the name is legal and the type known |
| `RequestLines.NoNameFails` | src/dns.c:186-189 | a line that is empty or begins with white space is refused |
| `RequestLines.NoTypeFails` | src/dns.c:203-206 | so is a name with nothing but white space after it |
| `RequestLines.EdnsIffFits` | src/edns.c:122-140 | the OPT record is refused if and only if it does not fit |
| `RequestLines.TsigIffFits` | src/tsig.c:307-314 | the TSIG record is refused if and only if the key's name is not legal or fewer bytes are free than it is given |
| `RequestLines.LineReadsBack` | src/dns.c:506-546 | every request that is built for such a line fits its buffer and reads back as its ID, RD, the labels of the first part, the type of the third and class IN, then OPT, then TSIG |
| `RequestLines.DigestCovers` | src/tsig.c:243-290 | the digest is that of the message and the variables of section 4.3.3 of RFC 8945: key name, class ANY, TTL 0, algorithm, time, fudge 300, no error and nothing other |
| `RequestSpec.OptReads` | src/edns.c:122-158 | the OPT record reads back as root, 41, 4096, the DO flag and the option |
| `RequestSpec.TsigReads` | src/tsig.c:310-356 | the TSIG record reads back with the key's name, and its computed RDLENGTH is the length of its data |
| `RequestSpec.TsigNeedsName` | src/tsig.c:321-331 | a TSIG record is read as one if and only if the key's name is not empty |
| `RequestSpec.QuestionBuilt` | src/dns.c:177-217 | a header and question that were built read back as ID, RD, name, type and class IN |
| `RequestSpec.UnsignedReads` | src/dns.c:506-539 | the same with the OPT record after the question |
| `RequestSpec.RequestReadsBack` | src/dns.c:506-546 | every request built in any buffer of 272 to 65535 bytes fits and reads back as its ID, flags, name, type and class, then OPT, then TSIG last, with ARCOUNT counting them |
| `RequestSpec.SignatureReadsBack` | src/tsig.c:235-356 | the TSIG data reads back as algorithm, time, fudge 300, the digest of the message before it was added, the message's ID and no error |
| `TsigAlgorithms.AlgorithmsArePlain` | src/tsig.c:35-40 | each algorithm's name takes two bytes more than its text, as `rdlen` supposes |
| `RequestWriter.BuildQuery` | src/dns.c:177-217 | the result for every line and every free space, and the question appended on success |
| `RequestWriter.AddEdns` | src/edns.c:122-158 | no space if and only if the record does not fit; otherwise it is appended and counted |
| `RequestWriter.PutDigestFields` | src/tsig.c:262-290 | the fields to digest always fit their 512 bytes |
| `RequestWriter.AddTsig` | src/tsig.c:235-356 | the result for every key and every free space; on success the record is appended and counted; no write goes past the end |
| `RequestWriter.BuildRequest` | src/dns.c:506-546 | in an empty buffer of at least 272 bytes no buffer assertion fails, and result and message are as described |
| `ResperfSlots.SlotFound` | src/resperf.c:598-599 | a slot's ID is below 65536, its socket exists, and a response with both is looked up in that slot |
| `ResperfSlots.OnlyItsOwn` | src/resperf.c:756-766 | no other ID and socket lead there |
| `ResperfSlots.FindBucket` | src/resperf.c:468-482 | the bucket is within the array, for every time and whatever overflows |
| `ResperfSlots.BucketHolds` | src/resperf.c:468-482 | without overflow a bucket holds its fraction of the traffic period, the last also everything later |
| `ResperfRuns.FinishKeepsInv` | src/resperf.c:601-629 | taking a delayed query for sent keeps everything, whether or not its message has gone out |
| `ResperfRuns.FlushedKeepsInv` | src/resperf.c:506-515 | the callback of a transport that has sent a delayed message keeps everything |
| `ResperfRuns.CallbackFindsSlot` | src/resperf.c:512-513 | its assertion holds: the ID and socket of a delayed message lead back to the slot it was sent from |
| `ResperfRuns.SendKeepsInv` | src/resperf.c:631-693 | sending, failing or delaying a new query keeps everything |
| `ResperfRuns.ResponseKeepsInv` | src/resperf.c:756-782 | a response, expected or not, keeps everything |
| `ResperfRuns.RetiresTail` | src/resperf.c:784-800 | in every state the expired queries at the tail are retired and counted as timed out, up to the first that has not expired |
| `ResperfRuns.RetiresExactlyIff` | src/resperf.c:784-800 | these are exactly the expired queries if and only if no expired query is ahead of one that has not expired |
| `ResperfRuns.RetiresExactly` | src/resperf.c:784-800 | which holds as long as no outstanding query was stamped again |
| `ResperfRuns.StepKeepsInv` | src/resperf.c:861-906 | every step, and every call back from a transport, keeps the lists a partition of the slots, the counters balanced and only the head of instanding_list in progress; the outstanding list newest first until an outstanding query is stamped again; and every bucket accounted for until a query is taken for sent before it was |
| `ResperfRuns.TalliedIffNotTooEarly` | src/resperf.c:602-618 | from a state in which every bucket accounts for its queries, a step leaves it so if and only if it does not take a delayed query for sent while a transport still holds its message |
| `ResperfRuns.BucketsAddUpIff` | src/resperf.c:861-906 | in every run every bucket accounts for its queries all the time if and only if no step does that |
| `ResperfRuns.OrderIffNoneOvertakes` | src/resperf.c:512-514 | from a list that is newest first, a step leaves it so if and only if it does not stamp an outstanding query later than one ahead of it or one in progress |
| `ResperfRuns.InitInv` | src/resperf.c:395-404 | setup establishes it |
| `ResperfRuns.QueriesAccountedFor` | src/resperf.c:861-906 | in every run sent = received + timed out + outstanding, which is the size of outstanding_list, and at most one query is in progress, at the head of instanding_list |
| `ResperfRuns.CountersCount` | src/resperf.c:601-800 | in every run the counters are the numbers of queries sent, of responses for an outstanding query and of queries retired, and each bucket has the messages that went out in its time and the responses and failures for queries stamped in it |
| `ResperfRuns.RetireCounts` | src/resperf.c:784-800 | retiring counts the queries it takes off the list, and nothing else |
| `ResperfRuns.StampsAre` | src/resperf.c:514-671 | the stamp of every slot after every step |
| `ResperfRuns.HeldIs` | src/resperf.c:506-693 | a transport holds a message from when it is delayed until it goes out or its slot is used again |
| `ResperfRuns.UndelayedRuns` | src/resperf.c:889-891 | in every run without delayed sends the outstanding list is newest first, and the queries of each bucket are its responses, its retired queries and the outstanding ones stamped in it |
| `ResperfRuns.MissingFromItsBucket` | src/resperf.c:602-618 | for every timeout, a run after which an outstanding query is not counted in its bucket |
| `ResperfRuns.ExpiredQueryStays` | src/resperf.c:514 | for every timeout, a run after which an expired query is not retired |
| `ResperfRuns.ResponseFindsSlot` | src/resperf.c:756-772 | the answer to an outstanding query is counted and frees its slot, to the end of instanding_list |
| `Resperf.Tester.constructor` | src/resperf.c:386-404 | the state after setup |
| `Resperf.Tester.DoOneLine` | src/resperf.c:584-693 | refines the description for every outcome of every sockready in it, also those that send a delayed message; its loop completes at most one delayed send |
| `Resperf.Tester.SendLine` | src/resperf.c:889-891 | a line that was sent is also counted in the bucket of the time |
| `Resperf.Tester.NetSent` | src/resperf.c:506-515 | refines the description of the callback; its index is within the array |
| `Resperf.PolledSends` | src/resperf.c:506-515 | a message that a transport has sent is stamped with the time and counted in its bucket |
| `Resperf.LineIs` | src/resperf.c:584-693 | exactly when a line completes a delayed query and when it sends a new one, and what is returned |
| `Resperf.Tester.TryProcessResponse` | src/resperf.c:720-782 | refines the description: asking whether the socket is ready, which may send a delayed message, then the response, expected or not |
| `Resperf.Tester.RetireOldQueries` | src/resperf.c:784-800 | the loop at the tail refines the description of retiring |
| `Resperf.PhaseTimes` | src/resperf.c:866-879 | ramp-up lasts for its time and constant traffic until the end of all traffic |
| `Resperf.MainLoop.SendIfDue` | src/resperf.c:880-898 | a line is sent if and only if the schedule is ahead of what was sent; sending ends if and only if it has fallen behind by the unsigned comparison or a line is due and no slot is free |
| `Resperf.FellBehindIff` | src/resperf.c:881-882 | the comparison holds if and only if the number to send reaches the limit or is negative |
| `Resperf.LineSends` | src/resperf.c:584-693 | a line sends at most two queries, and two only if a delayed one was in progress |
| `Resperf.AheadOfSchedule` | src/resperf.c:881-889 | with one query scheduled, two lines that are due send two queries, after which sending ends whatever the limit |
| `Resperf.MainLoop.TryResponses` | src/resperf.c:899-903 | the sockets are asked one after the other, from where the last turn stopped |
| `Resperf.SocketsTakeTurns` | src/resperf.c:899-903 | n sockets on, modulo their number, is where it stops |
| `Resperf.AnswerComesFirst` | src/resperf.c:899-904 | a response that is there counts even if its query has expired |
| `Resperf.MainLoop.Turn` | src/resperf.c:861-906 | a turn sends a line if one is due, takes responses, retires and reads the clock, in this order; it sends nothing if it begins in the wait phase, leaves no query outstanding that had expired unless one was stamped again, and ends the run if and only if it begins in the wait phase with nothing outstanding or out of time |

## Left out

- DNS over HTTPS (src/net_doh.c): its state lives in nghttp2 and OpenSSL.
- Dynamic updates (`build_update`, `read_update_line`, and the text-update branch of `read_one_line`'s caller): they rest on LDNS.
- The insides of HMAC, base64 and TLS: a digest is any function to at most 64 bytes, a TLS call has any outcome.
- `perf_qtype_fromstring` and the table in src/qtype.c: looking up a type is a parameter, so its prefix matching is not described.
- `perf_edns_parseoption` and `perf_tsig_parsekey`: an option is any bytes and a key any name with one of the algorithms; they would only add easy members.
- Options, logging, polling, address parsing, the UDP transport and URI parsing (src/opt.c, src/log.c, src/os.c, src/net.c, src/net_udp.c, src/ext/parse_uri.c).
- Statistics and their printing, `hg64_mean_variance`, `hg64_get`, latency sums and `num_scheduled`: floating point or plain output. What is scheduled is a parameter of a turn.
- Reuse of descriptor numbers by the operating system, and memory orders weaker than sequential consistency.
- The places where DoT updates fields outside its lock: calls are atomic. The return with the lock held (src/net_dot.c:293-295) is recorded as a flag only.
- Clipping a line to the caller's buffer (src/datafile.c:261-263): the callers' buffers hold any line that fits the reader's.
- The loops of `do_send` and `do_recv` as methods: their bodies are steps of `QueryProtocol` and `RateLimit`, so that all interleavings are covered; `query_move` is also proved on linked lists.
- resperf's lists as linked lists: they are sequences in `Tester`, as src/list.h is proved to refine sequences in `QueryLists`.
- Datafile.Datafile.NextMany: leaves out an unfinished last line in a regular file that fits the buffer, which is read or not depending on the sizes of reads (`UnfinishedIffCached`), and blobs followed by an incomplete one, for which `ReadBlobs` says what a run gives.
- Rewinding a descriptor that cannot seek, which ends the program (src/datafile.c:117-119).
- RequestWriter.BuildRequest: says nothing of the buffer's contents when building fails, since every caller discards them.
