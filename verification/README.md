# ctraffic client engine — a Dafny model

ctraffic keeps many rate-limited client connections to an echo server open
for the length of a test, records per-connection and aggregate statistics,
and later analyses the recorded statistics offline. This project models the
sequential rules inside `cmd/ctraffic/main.go` and proves properties of them:

- **Address helpers** (`address.dfy`): `withPort`, which appends `:0` to a
  source address without a port, and `addrPool.GetIPStringIdx`, the
  file-backed source-address pool indexed by slot id.
- **Hostname stamping** (`bytes.dfy`, `hostname.dfy`): the server's `copy` of its hostname
  over the start of a probe, and the client's extraction of the bytes before
  the first NUL of its first reply.
- **Time and back-off** (`time.dfy`, `backoff.dfy`): durations in integer
  nanoseconds, and the linear dial back-off (100 ms, +100 ms per failed
  retry, capped at 1 s).
- **Slot table and counters** (`slots.dfy`): one `connData` entry per slot,
  the aggregate `statistics` counters, and sums over the table.
- **Client state machine** (`client.dfy`, `client_properties.dfy`,
  `client_outcomes.dfy`): the loops of `client` and `udpClient` with the
  `Run` loops of `echoConn` and `udpConn`. Every goroutine is a worker phase.
  One `Step` is one atomic step of one worker. The clock, dial results,
  token-bucket drops, replies and cancellation arrive as event fields. Any
  sequence of moves stands for any interleaving. The table is a `seq<Slot>`
  and the cursor `nConn` is a `nat`.
- **Report** (`report.dfy`, `run_report.dfy`): `printStats` / `copyStats`,
  which map slots to records whose times are offsets from the start.
- **Analysis** (`analyze.dfy`, `string_order.dfy`): `analyzeConnections`
  (connection classes per one-second interval), `analyzeHosts`, and `printKv`
  with the byte-wise order of `sort.Strings`.

Go strings are byte strings. A Dafny `string` here stands for one, with one
char per byte and no UTF-8 decoding. Packets are sequences of a `byte`
newtype. A `time.Time` is `Zero` or an instant in nanoseconds.

Three behaviours of the code are worth stating plainly:

- `udpClient` (main.go:877-886) loops back after any `Run` error and claims
  a new slot, although its table holds only `nconn` slots (line 788). The
  (nconn+1)-th claim of the run, whichever worker makes it, aborts the run
  with "Too many re-connects".
- A TCP dial that is given up counts a failed connect only when the context
  is done (lines 458-462). It counts none when the worker stops because less
  than 2 s remain (lines 467-470).
- `GetIPStringIdx` (lines 150-156) returns `""` past the end of the pool and
  also for an empty line of the address file. Either aborts the run with
  "Ran out of source addresses" (lines 432-435).

## Model

| member | source | states |
|---|---|---|
| Address.Contains | cmd/ctraffic/main.go:161 | substring search is true exactly when the pattern occurs at some offset |
| Address.WithPort | cmd/ctraffic/main.go:159-170 | the result is the input or the input followed by ":0"; it is unchanged exactly when the input has a bracket and contains "]:", or has no bracket and contains ":"; the result always contains ":" |
| Address.Lookup | cmd/ctraffic/main.go:150-156 | the address for slot `cursor` is that line of the pool; it is empty exactly when the pool is exhausted or the line itself is empty, and a non-empty result is always one of the pool's lines |
| Address.LookupExhaustedExactlyAtLength | cmd/ctraffic/main.go:150-156 | for a pool of non-empty lines, the lookup yields "" exactly when the index is at or past the pool's length |
| Hostname.ServerStamp | cmd/ctraffic/main.go:634-635 | the server echoes a packet of the same length with its hostname's bytes over the front and the rest unchanged, or the packet as it came when `os.Hostname` fails |
| Hostname.Stamp | cmd/ctraffic/main.go:630-636 | the stamped packet keeps its length, starts with the hostname's first min(len) bytes, and keeps the rest unchanged |
| Hostname.TcpFirstReply | cmd/ctraffic/main.go:630-641 | the first TCP reply is as long as the packet sent, and everything past the 64-byte probe is echoed unchanged |
| Hostname.IndexByte | cmd/ctraffic/main.go:593 | returns -1 exactly when the byte is absent, otherwise the position of its first occurrence |
| Hostname.ExtractHost | cmd/ctraffic/main.go:591-596 | when the packet starts with a non-NUL byte and holds a NUL, the result is the NUL-free prefix before the first NUL; otherwise the hostname stays as it was |
| Hostname.AsStringInjective | cmd/ctraffic/main.go:594 | two recorded host byte strings give the same Go string exactly when they are equal, so grouping records by host string groups them by the bytes recorded |
| Hostname.TcpHostnameRoundTrip | cmd/ctraffic/main.go:568-596 | a hostname of 1 to 63 non-NUL bytes stamped on the client's zero-filled first packet is recovered exactly |
| Hostname.TcpHostnameTruncated | cmd/ctraffic/main.go:630-636 | a hostname of 64 bytes or more is cut to 64 bytes when the packet is longer than the probe, and is not recorded when the packet is exactly 64 bytes |
| Hostname.NoHostnameKeepsHost | cmd/ctraffic/main.go:634-635 | a server that stamps nothing (no hostname, an empty one) leaves the client's hostname unchanged |
| Hostname.UdpHostnameRoundTrip | cmd/ctraffic/main.go:774-776 | over UDP any non-NUL hostname shorter than the packet is recovered exactly |
| Backoff.NextValid | cmd/ctraffic/main.go:464-466 | one more retry keeps the back-off a whole number of 100 ms steps within [100 ms, 1 s], and never lowers it |
| Backoff.Schedule | cmd/ctraffic/main.go:454-466 | the back-off before the (k+1)-th retry is (k+1)·100 ms for k < 9 and 1 s from then on; it never exceeds 1 s |
| Slots.SumOfClaimed | cmd/ctraffic/main.go:376 | when slots past the cursor are untouched, the issued prefix of the table carries the whole sum of a counter |
| Client.Step | cmd/ctraffic/main.go:410-491 | one worker step keeps table and worker count, never lowers the cursor, changes nothing after a fatal exit, touches no other worker, and writes no slot except the one the worker owns or claims |
| ClientProperties.InitInv | cmd/ctraffic/main.go:327-353 | the freshly started run satisfies the invariant, so its table has nconn·retries slots for TCP (nconn for UDP, line 788) and every counter equals the zero sum over untouched slots |
| ClientProperties.StepInv | cmd/ctraffic/main.go:410-491 | every step keeps the invariant: table never overrun while alive, untouched slots past the cursor, distinct owned ids, aggregates equal to per-slot sums, received ≤ sent, valid back-offs, every unended issued slot owned |
| ClientProperties.ExecuteInv | cmd/ctraffic/main.go:352-360 | any interleaving of worker steps keeps the invariant |
| ClientProperties.RunAccounting | cmd/ctraffic/main.go:702-710 | after any interleaving the cursor stays within capacity unless fatal, unissued slots are untouched, each aggregate packet counter equals the sum over slots, and no slot has more replies than packets sent |
| ClientProperties.StepGrows | cmd/ctraffic/main.go:702-716 | no step lowers the cursor, an aggregate counter or any per-slot counter |
| ClientProperties.ExecuteGrows | cmd/ctraffic/main.go:702-716 | no interleaving lowers the cursor or any counter |
| ClientOutcomes.StopNearDeadline | cmd/ctraffic/main.go:415-419 | with less than 2 s left (1 s for UDP, line 834) a worker returns without claiming a slot or changing anything else |
| ClientOutcomes.ClaimIsFresh | cmd/ctraffic/main.go:422-429 | a claim issues the cursor's value and advances it by one; that id was never issued (unowned, its slot untouched); an id at or past capacity is fatal "Too many re-connects" before the table is written |
| ClientOutcomes.SourcePoolExhaustedAtLength | cmd/ctraffic/main.go:432-436 | with a pool of non-empty lines, a claim within the table aborts with "Ran out of source addresses" exactly when the slot id reaches the pool's length |
| ClientOutcomes.DialSuccess | cmd/ctraffic/main.go:474-476 | a successful dial stamps the connect time and enters Run with counters unchanged |
| ClientOutcomes.DialFailure | cmd/ctraffic/main.go:454-473 | a cancelled context stamps the nominal end and adds one failed connect; less than 2 s left stamps the nominal end and adds none; otherwise one failed connect is added and the dial retried with the next back-off; failed connections never change here |
| ClientOutcomes.UdpDialFailure | cmd/ctraffic/main.go:864-872 | an unresolvable UDP destination is fatal, and so is a failed UDP dial |
| ClientOutcomes.UnsupportedClientIsFatal | cmd/ctraffic/main.go:446-451 | without a source pool, a TCP claim aborts exactly when the client type is not "echo", after the slot's start is stamped; UDP never checks the type |
| ClientOutcomes.RunOutcome | cmd/ctraffic/main.go:476-491 | a nil Run result stamps the nominal end and stops the worker; an error stamps now, is stored, and for TCP adds exactly one failed connection and loops back only with reconnect; for UDP (lines 877-886) counts nothing and always loops back |
| ClientOutcomes.SendCountsTogether | cmd/ctraffic/main.go:574-583 | a send adds one to the slot's and the aggregate sent counter, and each drop one to both dropped counters |
| ClientOutcomes.ReceiveCountsTogether | cmd/ctraffic/main.go:588-599 | a reply adds one to both received counters, and only the first reply of a slot may set its hostname |
| ClientOutcomes.JoinedSlotsEnded | cmd/ctraffic/main.go:460-485 | once every worker has returned without a fatal exit, every issued slot carries an end stamp |
| Report.CopyStats | cmd/ctraffic/main.go:373-397 | there are `nConn` records, and each one within the table carries its slot's local and remote address and its hostname as a string |
| Report.PrintStats | cmd/ctraffic/main.go:366-371 | verbosity "none" reports nothing; any other reports the elapsed time and every aggregate counter as they stand, with `nConn` per-connection records for "all" and none otherwise |
| Report.CopiedRecords | cmd/ctraffic/main.go:373-397 | copyStats yields `nConn` records, and each one within the table holds its slot's counters, its start, connect and end times as offsets from the start (connect 0 when never connected), its error text, its local and remote address and its hostname; the records sum to the table, also in the flush after an overflowing claim (lines 424, 841) |
| Report.CopiedOverrunSum | cmd/ctraffic/main.go:373-376 | when `nConn` has run past the table, the zero records past its end add nothing, so the records still sum to the whole table |
| Report.OverrunRecordsAreZero | cmd/ctraffic/main.go:375-376 | records past the table's end, after an overflowing claim, are zero and have end offset 0 |
| RunReport.ReportMatchesTotals | cmd/ctraffic/main.go:366-397 | with verbosity "all", after any non-fatal interleaving, each aggregate counter in the report equals the sum over its per-connection records |
| RunReport.OverflowFlushCannotBeAnalyzed | cmd/ctraffic/main.go:423-426 | with verbosity "all", the statistics flushed at a table overflow hold a record with no end offset, so analysing connections of a run over 1 s aborts (lines 230-232) |
| StringOrder.LeTotal | cmd/ctraffic/main.go:291 | any two strings are ordered one way or the other |
| StringOrder.LeTransitive | cmd/ctraffic/main.go:291 | the string order is transitive |
| StringOrder.LeAntisymmetric | cmd/ctraffic/main.go:291 | strings ordered both ways are equal |
| StringOrder.Insert | cmd/ctraffic/main.go:291 | inserting into a sorted list keeps it sorted and adds exactly the one key |
| StringOrder.Sort | cmd/ctraffic/main.go:291 | the result is sorted and a permutation of the input |
| StringOrder.SortedKeys | cmd/ctraffic/main.go:287-291 | sorting the keys of a map, which hold no repeats, yields the same keys, each once |
| Analyze.Tally | cmd/ctraffic/main.go:228-260 | one interval aborts only with "A connection has never ended"; otherwise the new ones are among the active and connecting ones, and active, connecting and failed together never exceed the number of records |
| Analyze.Buckets | cmd/ctraffic/main.go:227-264 | the interval loop aborts only with "A connection has never ended", yields no line when not one more whole second fits below the duration, and centres its first line 500 ms after its start |
| Analyze.AnalyzeConnections | cmd/ctraffic/main.go:224-264 | the analysis aborts only with "A connection has never ended" and prints no interval for a run of 1 s or less |
| Analyze.TallyCounts | cmd/ctraffic/main.go:228-260 | one interval aborts exactly when some record has no end offset; otherwise active, connecting, new and failed are the sizes of their classes |
| Analyze.IntervalClasses | cmd/ctraffic/main.go:246-258 | active and connecting split the records live at the interval's end, and the new ones are among them |
| Analyze.BucketsAbort | cmd/ctraffic/main.go:227-232 | the interval loop aborts exactly when an interval remains and some record has no end offset |
| Analyze.BucketsRows | cmd/ctraffic/main.go:227-264 | when it does not abort, lines follow second by second from the start with ends below the duration, each holding its interval's class sizes |
| Analyze.AnalyzeConnectionsRows | cmd/ctraffic/main.go:224-264 | analyzeConnections aborts exactly when the run lasted over 1 s and a record has no end; otherwise one line per whole second below the duration, centred 500 ms in, with act + connecting = live, new ≤ act + connecting, failed = errors ended in the interval |
| Analyze.TallyHosts | cmd/ctraffic/main.go:266-280 | the empty hostname is never a key, and the lost and lasting totals together count no more records than there are |
| Analyze.LostCounts | cmd/ctraffic/main.go:266-280 | the lost total and every per-host lost entry are the sizes of their classes, and a host is a lost key only when it has an errored record |
| Analyze.LastingCounts | cmd/ctraffic/main.go:266-280 | the lasting total and every per-host lasting entry are the sizes of their classes, and a host is a lasting key only when it has an error-free record |
| Analyze.HostPartition | cmd/ctraffic/main.go:270-280 | a host's lost and lasting counts add up to all its records, and the two totals to all records with a hostname |
| Analyze.Keys | cmd/ctraffic/main.go:287-290 | the collected keys are exactly the map's keys, each once |
| Analyze.PrintKv | cmd/ctraffic/main.go:286-295 | one line per map entry, keys in ascending order and each key once, each with the key's value, every key present |
| Analyze.AnalyzeHosts | cmd/ctraffic/main.go:266-285 | the lost and lasting totals, then each host with at least one lost (lasting) connection, once, in ascending order, with its count |

## Left out

- Token bucket (`newLimiter`, `WaitN`, `AllowN`): it comes from an external rate-limiting library. The number of drops after each send, and whether `Run` ends, arrive as event fields.
- Goroutines, `sync.WaitGroup`, atomics, context deadlines and signals: they become an arbitrary interleaving of atomic worker steps. The `cancelled` field of a dial error stands for `ctx.Err()`.
- Network I/O (dial, read, write, read deadlines), `serverMain`, `udpServerMain`, `setUDPSocketOptions`, `parseDstFromOOB` and `correctSource`: these are thin wrappers over the socket and control-message libraries. Only the server's hostname stamp is modelled.
- Name resolution (`net.ResolveTCPAddr`, `ResolveUDPAddr`): whether a source address resolves is the event field `resolves`. Whether the UDP destination resolves (lines 864-867) is the `destResolves` field of a failed dial, and both failures are fatal exits of their own.
- JSON encoding and decoding (`reportStats`, `readStats`): they use the standard JSON library. The report is the `Stats` value itself.
- The CIDR address generator (`rndip`): an external library. Only the file-backed pool is modelled.
- TCP retransmit counts (`tcpinfo`): a foreign system call. Records and totals carry no retransmit field.
- Floating point: the per-connection rate `rate / nconn` is not stored in slots. `analyzeThroughput`, including the integer `reckb` expression, is not modelled. The packet size is not stored in slots or in the report.
- `sample` and `monitor`: timing loops that only read the counters. `main` and flag parsing are not modelled either.
- The fatal "Too many re-connects" exit also flushes partial statistics. The model records the fatal state, and RunReport.OverflowFlushCannotBeAnalyzed applies `PrintStats` to it separately.
- The deadline (`time.Now()` at lines 334 and 790) and `s.Started` are taken as one instant. The nominal end stamped on connections is `Deadline(c)`.
- Client.Step: counters and the slot cursor are unbounded naturals. The source's uint32 fields and `atomic.AddUint32` would wrap after 2^32 increments, which the model does not represent.
- Report.Since: the zero `time.Time` is treated as lying more than 292 years before the start, so its offset saturates to the smallest Duration. Overflow of `Sub` between real instants is not modelled.
