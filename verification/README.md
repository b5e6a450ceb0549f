# Water-quality gateway: a verified model

The gateway reads water samples over Modbus RTU, passes them through two bounded queues to a
processor and a store thread, keeps them in an SQLite table, and uploads them over TCP to a
line-based receiver. This project models that pipeline in Dafny and proves what it keeps, over every
input, every interleaving of its threads and every behaviour of the network.

Check it with `dafny verify dfyconfig.toml`.

## Modules

- `ShiftRegister`, `Crc16`, `Gf2Polynomial`, `ModbusFrame`: the CRC-16 loop, the frame builder and
  the parser over byte arrays. The loop is proved equal to a bit-serial register on `seq<bool>`,
  which is linear and injective; burst and odd-error detection, and the polynomial meaning of section
  6.2.2 of MODBUS over Serial Line Specification and Implementation Guide V1.02, follow from that.
- `Samples`, `Processor`: acquisition, alarm bits, and the LED debouncer with its history.
- `Queues`: the ring buffer as a class over an array, refining a queue on sequences that remembers
  everything ever offered to it.
- `Tables`, `StoreThread`, `Uploader`: the samples table as what its SQL statements mean, the store
  thread's loops, and the uploader's drain as imperative code with a termination measure.
- `Json`, `JsonBalance`, `Receiver`: the upload line, a reader for it, what any reader of JSON has to
  insist on, and the receiver's framing loop, whatever its reader.
- `UploadProtocol`, `UploadMarks`, `UploadWire`, `UploadHeads`, `Delivery`: the uploader as a step
  machine against a table that the store thread keeps changing, with partial sends, failures and
  reconnects; which rows it marks, which bytes and lines its connections carry, and what a receiver
  makes of them. `Delivery.Understands` is all that is asked of the receiver's reader: a line that
  begins with a brace it decodes only if its brackets balance, as section 2 of RFC 8259 demands, and
  it decodes every line the uploader renders, as a message that it can print.
- `Pipeline`: all threads and the shutdown in main as one step machine. `Pipeline.Next` is one step
  of one thread and `Pipeline.Execution` any run. A section with a queue's mutex held, an SQL
  statement, a `send` or a flag test is one atomic step; it uses the same `Pushed`, `AfterPop`,
  `Inserted`, `Marked`, `Retried` and `Lowest` that the imperative classes are proved against.
  `DrainRuns` and `StoreRuns` show that the imperative drain of `Uploader` and the imperative loops
  of `StoreThread`, run alone, are runs of this machine.
- `Flow`, `CacheSize`, `Shutdown`, `EndToEnd`, `Fates`: what holds in every reachable state.
  `Progress`: every run can be brought to its end. `Stranded` and `Unsent` are concrete runs that lose
  something, put together from `Runs`. `Sequences` and `Options` are helpers.

Measurements are fixed-point integers: hundredths for pH, temperature and turbidity, units for
conductivity, so the default thresholds are 650, 850, 4500, 500 and 2000 (`Samples.DEFAULTS`).

## Where the code and its documentation differ

The code is followed in each case.

- README.md of the repository says that shutdown drains the queues and lost none of 80 samples. The
  processor stops at its flag without draining raw_queue: `Stranded.AllLeftInRaw` is a run that leaves
  a whole raw_queue behind, for any capacity, and `Shutdown.RawLostExactly` says that what raw_queue
  loses is exactly what it held, had turned away or the collector had in hand when the processor
  stopped. store_queue can keep or turn away one last sample: `Stranded.SampleStranded` is such a run,
  and `Shutdown.LostExactly` says that what is lost there is fixed once the store thread has left and
  the processor is past its pop. `Shutdown.LosslessExactly` puts both together, and
  `EndToEnd.LossAtShutdown` is the account at the end of any run.
- It also says that shutdown clears every record not yet uploaded. `EndToEnd.PendingExactly` and
  `EndToEnd.UploadedExactly` say exactly when that holds: as the uploader tests its flag nothing is
  waiting, or it is connected and its batch limit is not zero, and no row has run out of retries; the
  one exception is a SELECT that fails and so ends the drain. `Unsent.NeverConnected`,
  `Unsent.GivenUp` and `Unsent.SelectFailed` are runs for which it does not hold.
- After a failed send the drain keeps the connection and queries again, so the next line, which is
  the same row's while it has retries left, stands behind whatever was accepted of the broken one. If
  that is anything at all, the line is unreadable, though its row is marked as uploaded
  (`Delivery.LineAfterBreak`; `Unsent.MarkedInVain` is a run). `EndToEnd.CountedAfterRun` and
  `EndToEnd.CompleteExactly` give the exact condition for a row's message to be counted.
- The test encoder writes its byte count into one byte, so frames of more than 127 registers do not
  parse; up to the standard's 125 they do (`ModbusFrame.ResponseRoundTrip`).

## Model

| member | source | states |
|---|---|---|
| ShiftRegister.FeedLinear | app/src/modbus_rtu.c:16-25 | the bit-serial CRC is linear over GF(2) in register and message together |
| ShiftRegister.FeedInjective | app/src/modbus_rtu.c:16-25 | for a fixed message the register map is injective: no two registers meet |
| ShiftRegister.AbsorbByte | app/src/modbus_rtu.c:16-25 | xoring a byte in and shifting eight times is feeding its bits, least significant first |
| ShiftRegister.ClearsOnlyItself | app/src/modbus_rtu.c:16-25 | sixteen further bits clear the register if and only if they equal its contents |
| ShiftRegister.BurstNotZero | app/src/modbus_rtu.c:16-25 | a nonzero pattern within sixteen consecutive bits, at any offset, never feeds the zero register back to zero |
| ShiftRegister.FeedParity | app/src/modbus_rtu.c:16-25 | the step preserves the parity of register and message bits together |
| Crc16.AbsorbByte | app/src/modbus_rtu.c:17-24 | the inner loop computes the byte step |
| Crc16.ComputeCrc | app/src/modbus_rtu.c:7-28 | the nested loops compute the CRC of the bytes given, and 0 for a null or empty buffer |
| Crc16.ShiftIsRegister | app/src/modbus_rtu.c:18-23 | the 16-bit shift with polynomial 0xA001 is the register's shift, bit by bit |
| Crc16.CrcIsFeed | app/src/modbus_rtu.c:7-28 | the byte-wise CRC is the bit-serial one on the message bits, least significant first |
| Crc16.StandardExample | app/src/modbus_rtu.c:7-28 | the example of section 6.2.2 of MODBUS over Serial Line V1.02: 02 07 has the CRC 0x1241 |
| Gf2Polynomial.RemainderUnique | app/src/modbus_rtu.c:7-28 | remainders modulo x^16+x^15+x^2+1 are unique |
| Gf2Polynomial.FeedIsRemainder | app/src/modbus_rtu.c:7-28 | the register is the bit-reflected remainder of initial value and message |
| ModbusFrame.CrcIsRemainder | app/src/modbus_rtu.c:7-28 | for every non-empty message the CRC is the bit-reflected remainder, initial value 0xFFFF, modulo x^16+x^15+x^2+1, and the only value that is |
| ModbusFrame.BuildReadRequest | app/src/modbus_rtu.c:30-61 | accepts exactly a large enough buffer and 1 to 125 registers, writes the request with its CRC into eight bytes, and touches nothing otherwise |
| ModbusFrame.RequestRoundTrip | app/src/modbus_rtu.c:49-58 | the request's address, start and quantity can be read back, and its CRC checks |
| ModbusFrame.RequestExactly | app/src/modbus_rtu.c:44-58 | the request byte by byte: slave, 0x03, start and quantity high byte first, and no CRC remainder |
| ModbusFrame.CheckFrame | app/src/modbus_rtu.c:78-109 | accepts exactly the frames of at least five bytes with function code 0x03, a length of byte count plus five and a CRC register of zero over the whole frame, and then returns their register count |
| ModbusFrame.ParseResponse | app/src/modbus_rtu.c:63-122 | returns -1 and writes nothing unless the frame is such a one and max_values is positive, else the number of registers stored, at most max_values, each the value of its two bytes, and leaves the rest of the array alone |
| ModbusFrame.AcceptedExactly | app/src/modbus_rtu.c:78-119 | what a response is, said of its bytes alone: at least five, the second one 0x03, as many as the third one says plus five, and no CRC remainder; its registers are the byte pairs from the fourth byte on, high byte first |
| ModbusFrame.CopyRegisters | app/src/modbus_rtu.c:116-119 | the copy loop fills the registers in order and nothing else |
| ModbusFrame.BuildTestResponse | app/src/modbus_rtu.c:229-247 | the encoder writes exactly the response frame of the registers, byte count modulo 256 included |
| ModbusFrame.ResponseExactly | app/src/modbus_rtu.c:229-247 | the test frame byte by byte: 0x01, 0x03, twice the number of registers modulo 256, each register high byte first, and no CRC remainder |
| ModbusFrame.ResponseRoundTrip | app/src/modbus_rtu.c:63-122 | encoding then parsing gives back the first min(count, max_values) registers if there are at most 127, and fails for every longer list |
| ModbusFrame.ZeroResidue | app/src/modbus_rtu.c:103-109 | the CRC check passes if and only if the CRC over the whole frame is zero |
| ModbusFrame.BurstDetected | app/src/modbus_rtu.c:95-109 | no frame that differs from an accepted one by an error within sixteen consecutive bits, at any bit offset, is accepted |
| ModbusFrame.AcceptedEven | app/src/modbus_rtu.c:97-109 | every accepted frame has an even number of 1 bits |
| ModbusFrame.OddErrorDetected | app/src/modbus_rtu.c:97-109 | flipping any odd number of bits of an accepted frame makes the parser reject it |
| Samples.Acquisition.GenerateMock | app/src/sample.c:44-62 | the static counter goes up by one and the mock sample follows from it |
| Samples.Acquisition.Acquire | app/src/main.c:100-118 | a reply that is a response with at least seven registers becomes the sample with each of them in its place, pH first, temperature signed; anything else becomes a mock sample with the next sequence number, and only then the counter moves |
| Samples.AcquiredExactly | app/src/sample.c:44-78 | for every byte string: if and only if it is a response of seven registers, the sample carries them, said of the bytes of the reply; otherwise the counter goes up by one and the sample is the mock one of that number, its ranges and steps given by value |
| Samples.AcquireRoundTrip | app/src/sample.c:64-78 | a reply that encodes seven registers is taken as those registers, each in its field, signed temperature included, and the mock counter stays |
| Samples.MockRaisesNoAlarm | app/src/sample.c:54-61 | mock samples are in range for the default thresholds, so falling back to them tags nothing |
| Samples.AlarmBits | app/src/processor.c:32-60 | each of the bits 1, 2, 4, 8 and 16 is set if and only if its limit is exceeded, no other bit is, and none at all is if and only if the sample is within its limits |
| Samples.DefaultLimits | app/src/processor.c:17-30 | by default these limits are pH 6.50 to 8.50, 45.00 degrees, turbidity 5.00 and conductivity 2000 |
| Samples.WithAlarmKeeps | app/src/processor.c:109-110 | bit by bit the alarm word becomes the reported one or the computed one, and no other field changes |
| Samples.TaggedExactly | app/src/processor.c:87-110 | tagging keeps time, the four measurements, sensor status and sequence, and sets an alarm bit if and only if it was reported or its limit is exceeded |
| Samples.TagOnce | app/src/processor.c:87-110 | tagging looks at the measurements only: a second tagging changes nothing |
| Processor.Debouncer.ProcessOne | app/src/processor.c:85-110 | one turn of the loop: the debouncer follows the specification of its whole history, and the sample goes on as it came, field by field, with only the bits of the limits it exceeds added |
| Processor.Debouncer.Debounce | app/src/processor.c:89-107 | counters, LED state and commands are those of the history with one more sample |
| Processor.CountersAreSuffixes | app/src/processor.c:89-101 | alarm_cnt and clear_cnt are the lengths of the current alarming and normal suffixes |
| Processor.LedCharacterised | app/src/processor.c:89-107 | the LED is on if and only if some three consecutive alarming samples had no two consecutive normal ones after them |
| Processor.CommandsFollowLed | app/src/processor.c:92-106 | a command goes out exactly when the LED changes, and it is the state it changes to |
| Processor.TogglesCostSamples | app/src/processor.c:89-107 | commands alternate starting with ON, and each costs its number of samples |
| Processor.ToggleRate | app/src/processor.c:89-107 | n samples cause at most (n+2)/5 ON and n/5 OFF commands |
| Processor.ToggleRateTight | app/src/processor.c:89-107 | for every n some run of n samples reaches both bounds |
| Queues.Ring.constructor | app/src/sample_queue.c:8-41 | a new ring is an empty open queue of its capacity |
| Queues.Ring.Push | app/src/sample_queue.c:92-114 | rejected if and only if shut down; with room the entry is appended and nothing overwritten; only a full queue loses its oldest entry and counts one overflow; counters and array stay those of the queue |
| Queues.PushOverwrites | app/src/sample_queue.c:97-108 | in every consistent state a push overwrites if and only if the queue is open and full before it, and it is full after it; then the oldest entry goes and nothing else |
| Queues.Ring.Pop | app/src/sample_queue.c:124-157 | hands out the oldest entry, and fails if and only if there is none or a wait for one ended by its timeout, in which case an entry that has arrived since stays |
| Queues.Ring.DropOldest | app/src/sample_queue.c:97-101 | moving the tail drops exactly the oldest entry |
| Queues.Ring.Shutdown | app/src/sample_queue.c:160-171 | closes the queue and keeps its contents |
| Queues.RunConsistent | app/src/sample_queue.c:70-171 | in every state any interleaving reaches, the contents are the accepted pushes without their oldest pop_count + overflow_count, which went out in order through one of the two exits, and nothing is rejected before shutdown |
| Queues.RunOverwrites | app/src/sample_queue.c:97-108 | over every run the queue has overwritten exactly as many entries as pushes found it open and full |
| Queues.DrainsAfterShutdown | app/src/sample_queue.c:92-95 | after shutdown nothing enters, and pops return exactly the remaining contents in order and then fail |
| Tables.Database.Insert | app/src/sqlite_store.c:80-121 | an insert takes a fresh id and starts unmarked with no retries; a failed one changes nothing |
| Tables.Database.MarkUploaded | app/src/sqlite_store.c:171-193 | marks the row of that id if it is there, and nothing else |
| Tables.Database.IncRetry | app/src/sqlite_store.c:195-217 | counts a retry on the row of that id if it is there, and nothing else |
| Tables.UpdatesOne | app/src/sqlite_store.c:171-217 | the two updates change one column of one row, and nothing else |
| Tables.Database.TrimCache | app/src/sqlite_store.c:219-260 | the whole outcome for each combination of limit, size and failing COUNT and DELETE statements |
| Tables.LowestAre | app/src/sqlite_store.c:237-256 | ORDER BY id LIMIT k selects the k lowest ids, or all |
| Tables.TrimRanKeeps | app/src/sqlite_store.c:230-256 | a trim whose statements all run is the complete trim, and one whose COUNT or DELETE fails keeps every row that the complete one would |
| Tables.TrimRanExactly | app/src/sqlite_store.c:219-260 | which rows are left for each combination of limit, table and failing statements: all, or those waiting for upload and the newest uploaded ones up to the limit, or the newest waiting ones up to it, or, if the second half fails, all waiting ones |
| Tables.TrimInterleaved | app/src/sqlite_store.c:219-260 | even if the uploader marks rows between the statements, a trim that finds too many rows leaves exactly max_count, and deletes an un-uploaded row only if more than max_count were un-uploaded at the first DELETE |
| Tables.TrimKeepsWaiting | app/src/sqlite_store.c:219-260 | run alone with room for all un-uploaded rows, the survivors are those and the newest uploaded ones |
| Tables.TrimKeepsNewestWaiting | app/src/sqlite_store.c:219-260 | run alone without room, the survivors are the newest max_count un-uploaded rows |
| StoreThread.Worker.Turn | app/src/sqlite_store.c:282-300 | one turn pops at most one sample, none if the wait expired, writes it or counts the failure in the right counter, and every hundredth trims the table, whichever of the trim's statements succeed |
| StoreThread.Worker.Drain | app/src/sqlite_store.c:302-318 | run alone, the drain ends with the queue empty, every sample left written in order or counted as failed in the right counter, and the table trimmed, whichever of the trim's statements succeed |
| StoreThread.InsertedAllAt | app/src/sqlite_store.c:302-316 | the i-th sample written has the i-th new id, unmarked and untried |
| StoreRuns.TrimIsRun | app/src/sqlite_store.c:219-260 | a trim by itself, whichever of its statements succeed, is a run of the step machine's store thread |
| StoreRuns.TurnIsRun | app/src/sqlite_store.c:282-300 | a turn of the imperative loop, whatever its outcomes, is a run of the step machine in which only the store thread moves: same queue, same table, same counters |
| StoreRuns.DrainIsRun | app/src/sqlite_store.c:302-318 | the imperative drain, whichever inserts and trim statements fail, is a run of the machine that ends its store thread |
| Json.JsonRoundTrip | app/src/uploader.c:15-34 | the line decodes to the same device id, integers and hundredths, negative ones included |
| Json.FormatIs | app/src/uploader.c:20-33 | the line is the format string with its nine values put in: key by key, in this order, integers in decimal and measurements with two places |
| Json.DigitsAreDecimal | app/src/uploader.c:20-33 | the digits printed for a number are decimal digits that stand for it, with no leading zero |
| Json.PlacesAreDecimal | app/src/uploader.c:21-22 | the two digits behind the point stand for the hundredths |
| Json.JsonFits | app/src/uploader.c:183-189 | with a device id of at most 63 plain characters the line is under 512 bytes, so the overflow branches are dead, and its body has no newline |
| JsonBalance.BodyBalanced | app/src/uploader.c:20-24 | every rendered body is a balanced text |
| JsonBalance.GluedUnbalanced | scripts/run_receiver.py:67-71 | a body behind anything that begins with a brace is not balanced, so no reader of JSON accepts it, nested objects and white space included |
| Receiver.LinesAppend | scripts/run_receiver.py:62-64 | splitting chunk by chunk gives the same lines and the same rest as splitting the whole stream |
| Receiver.LinesExactly | scripts/run_receiver.py:62-64 | lines and rest, joined by newlines, are the stream, and none of them contains one |
| Receiver.LinesOfPrefix | scripts/run_receiver.py:62-64 | a prefix of a stream has a prefix of its lines |
| Receiver.MessagesExactly | scripts/run_receiver.py:64-74 | whatever the reader, the messages are those of the lines with something other than white space on them that decode, one each, in their order |
| Receiver.TakeLines | scripts/run_receiver.py:63-82 | whatever the reader, the inner loop counts exactly the messages on the complete lines, and their alarms, and keeps the unfinished line, or dies on the first message it cannot print, having counted it |
| Receiver.Session | scripts/run_receiver.py:51-82 | whatever the reader and the chunking, a connection counts the messages on the lines of the whole stream, up to the first it cannot print |
| Receiver.UploadedPrinted | scripts/run_receiver.py:75-82 | every message the uploader renders can be printed, and is an alarm if and only if an alarm bit is set |
| Receiver.LineCarries | app/src/uploader.c:15-34 | what a receiver finds in the decoded line under each of the nine keys |
| Uploader.SendLine | app/src/uploader.c:67-82 | success means all bytes went out, failure that a proper prefix did; it fails if and only if a send does, exactly one and its last: a short write makes it go on |
| Uploader.WorkAfterUpdate | app/src/uploader.c:213-264 | the sum over pending rows of the retries left changes by exactly the updated row's share |
| Uploader.PassAccounts | app/src/uploader.c:226-256 | whatever the sends do, a pass marks exactly the rows sent, in id order, has at most one failed try, counts exactly the failed tries as retries, and a non-empty one leaves strictly less to do |
| Uploader.Uploads.SendRow | app/src/uploader.c:241-247 | a row's line goes out completely, or a send fails and a proper prefix of it does |
| Uploader.Uploads.UploadRow | app/src/uploader.c:191-202 | the row is marked if and only if its whole line went out on the socket; otherwise exactly one send failed, a proper prefix went out and its retry is counted; the counters follow |
| Uploader.Uploads.PassRow | app/src/uploader.c:226-256 | one row of a pass: table, counters and socket all move by the same outcome |
| Uploader.Uploads.DrainPass | app/src/uploader.c:219-262 | one query with its rows up to the first failed send or read: without a failed send it tries all rows waiting, or as many as its limit or the reading allows; each failed try is one send that failed; the socket carries each row's line or, for the last, a proper prefix |
| Uploader.Uploads.PassOnTop | app/src/uploader.c:215-262 | a query that may fail, and its pass, on top of the tries before it: it finds a row if and only if it is answered, its limit is not zero and a row is waiting, and then leaves strictly less to do |
| Uploader.Uploads.Drain | app/src/uploader.c:213-264 | the drain ends; with a batch limit other than zero every row is then uploaded or out of retries, unless it was the failure of its last query that ended it; the socket carries the tries' pieces, each its row's line or a proper prefix; the newly marked rows are those whose line went out whole, in id order, and every failed try is counted on its row and is one send that failed |
| DrainRuns.PassIsRun | app/src/uploader.c:219-262 | every pass of that drain is a run of the step machine, with the same table and the same bytes |
| DrainRuns.PassEnds | app/src/uploader.c:226-262 | after such a pass without a failed send the machine queries again if the pass had a row, whatever ended it, and is done if not, unfinished only if reading failed |
| DrainRuns.QueryUnanswered | app/src/uploader.c:219-224 | a query of the drain that cannot be prepared ends it, and leaves it unfinished |
| UploadProtocol.InsertKeeps | app/src/uploader.c:145-264 | an insert at any moment keeps the uploader's invariants |
| UploadProtocol.DeleteKeeps | app/src/uploader.c:145-264 | deleting any rows at any moment keeps them |
| UploadProtocol.SeenIs | app/src/uploader.c:88-101 | whatever row a running query returns lies above every line sent, carries what was inserted, and is pending if it is still there |
| UploadProtocol.StepKeeps | app/src/uploader.c:145-264 | every step keeps: ids of sent lines rising, all rows up to the last of them settled, retries within the limit, query and row in hand in step with the table |
| UploadProtocol.OnlyTheRowRead | app/src/uploader.c:191-202 | a step marks or counts a retry on exactly the row that was read, still with the payload inserted and sent under its id, the retry staying within the limit, and leaves every other row alone |
| UploadProtocol.FailedOnlyByBreak | app/src/uploader.c:67-82 | a row comes to be counted a retry only by a send that fails, and to be marked only by the one that accepts the last byte of its line; a short write leaves the rest to be sent |
| UploadProtocol.StepEvolves | app/src/uploader.c:191-202 | the uploader adds and removes no row and only moves its upload columns forwards |
| UploadProtocol.UnreadKeeps | app/src/uploader.c:215-217 | a query that has returned nothing has its whole range and limit left |
| UploadProtocol.LimitCounts | app/src/uploader.c:88-101 | a query returns a row only while its limit allows one more, uses one of the limit up for it, and passes over none that is neither uploaded nor out of retries |
| UploadProtocol.DrainEnds | app/src/uploader.c:260-262 | leaving the drain, unless a SELECT failed, no row its last query could see is pending |
| UploadMarks.StepMarks | app/src/uploader.c:191-202 | a row is marked if and only if its line was sent completely or it was marked before the start, but for the step in between |
| UploadWire.StepKeepsWire | app/src/uploader.c:67-82 | every step keeps: a connection's complete lines are those of the rows sent on it, its tail is the accepted part of the line in hand, and no line is spoilt on a connection that the main loop has closed, nor on the last one before a send fails in the drain |
| UploadHeads.StepHead | app/src/uploader.c:247-252 | every step keeps: what stands before a line is nothing or begins with a brace |
| Delivery.FlatUnderstands | scripts/run_receiver.py:67-82 | a reader of flat objects is such a reader: it decodes balanced lines only, and every line the uploader renders, as a message that can be printed |
| Delivery.DecodeText | scripts/run_receiver.py:67-71 | to any reader of JSON a sent line is a message, that of the row's own sample, if and only if nothing unfinished stood before it |
| Delivery.FramedUntilBreak | app/src/uploader.c:191-202 | on every connection but the last, and on the last one until a send fails in the drain, the lines a receiver finds are the first ones sent completely on it, and each is a message |
| Delivery.AllReceived | scripts/run_receiver.py:43-77 | over all connections the messages counted are those of a subsequence of the lines sent |
| Delivery.ReceivedInOrder | app/src/uploader.c:84-104 | the ids behind the messages rise strictly, and each message is the sample inserted under its id |
| Delivery.NeverDies | scripts/run_receiver.py:79-82 | on an uploader's connection the receiver counts all messages it has seen and never fails to print one |
| Delivery.CountedExactly | scripts/run_receiver.py:43-77 | with everything seen, a sent line is counted if and only if it is not spoilt, and as many messages as lines if and only if none is |
| Delivery.BreakToRead | app/src/uploader.c:247-252 | after a failed send the drain goes on on the same connection |
| Delivery.LineAfterBreak | app/src/uploader.c:247-255 | in the drain the line after a failed send is lost to the receiver if and only if part of the failed one had been accepted |
| Pipeline.StoreParts | app/src/sqlite_store.c:272-324 | the store thread changes store_queue only by popping, and nothing of the other threads |
| Flow.NextKeeps | app/src/main.c:120 | every step of every thread keeps the stage equations: what a stage was handed is what its queue accepted, then rejected, then what it holds |
| Flow.InExactlyOnePlace | app/src/sqlite_store.c:282-316 | in every reachable state each collected sample is in exactly one place |
| Flow.Conservation | app/src/sample_queue.c:94-114 | samples collected equal the sum of the rejected, overwritten, waiting, held, written and failed ones |
| Flow.OverwrittenExactly | app/src/sample_queue.c:97-108 | over every run of all threads, each queue overwrites one sample in exactly those steps in which a thread pushes into it open and full |
| Flow.WrittenSub | app/src/processor.c:81-149 | what is written is a subsequence of what was collected, tagged |
| Flow.WrittenInOrder | app/src/sqlite_store.c:282-316 | rows are written in collection order, none twice, each changed only by the tagging |
| CacheSize.NextKeeps | app/src/sqlite_store.c:282-318 | every step keeps the table's size bound |
| CacheSize.TrimsEveryHundredth | app/src/sqlite_store.c:290-300 | the main loop starts a trim exactly when it has handled a sample, there is a limit, and the samples written and failed add up to a multiple of a hundred |
| CacheSize.RunHandled | app/src/sqlite_store.c:290-298 | in every reachable state sample_counter is the number of samples written and failed |
| CacheSize.OthersEvolve | app/src/sqlite_store.c:219-260 | between two statements of the store thread the other threads only move upload columns forwards |
| CacheSize.TrimAmongOthers | app/src/sqlite_store.c:219-260 | a trim run among the other threads ends with exactly max_cache_count rows if it finds more, and deletes an un-uploaded row only if more than that were un-uploaded at its first DELETE |
| CacheSize.RowTaken | app/src/sqlite_store.c:237-256 | a row disappears only in a trim's DELETEs, and unsent only in the second one of a trim whose first found more rows waiting than the limit |
| CacheSize.NextIds | app/src/sqlite_store.c:41 | in a table that started empty, id base + i is the i-th sample written, for good |
| Shutdown.NextFlags | app/src/main.c:543-556 | every step keeps the order of flags, closings and joins |
| Shutdown.ShutdownOrder | app/src/main.c:543-556 | what each thread and queue can be after each of the nine statements of the shutdown, in their order |
| Shutdown.NextLate | app/src/main.c:544-547 | every step keeps: at most one sample comes too late for each queue |
| Shutdown.RawLostExactly | app/src/main.c:544-546 | what raw_queue loses is exactly what it held, had turned away or the collector had in hand when the processor stopped; it is nothing if and only if there was nothing |
| Shutdown.LosslessExactly | app/src/main.c:543-551 | a run ends with every sample written or counted as failed if and only if, with processor and store thread stopped, no queue had overwritten or turned away anything, both were empty and the collector held nothing |
| Shutdown.LossAtTheEnd | app/src/main.c:543-556 | with all threads joined, the exact account of samples not written |
| Shutdown.LostExactly | app/src/main.c:544-547 | what store_queue loses is what it held or the processor had in hand once the store thread had left and the processor was past its pop, whatever happens afterwards |
| Shutdown.UploadDrains | app/src/uploader.c:213-264 | every step keeps: drain queries see all rows, and after the drain none is pending unless a SELECT failed |
| Shutdown.NextDrains | app/src/main.c:551-556 | the store thread, joined first, cannot undo that |
| Shutdown.PassesFlagTest | app/src/uploader.c:145-213 | no run reaches the drain or the uploader's end without a state in which the flag is up and the uploader is about to test it |
| Shutdown.StopsSoon | app/src/uploader.c:145-172 | once its flag is up the main loop begins at most one more query and takes at most one more row, in every run of all threads |
| Stranded.SampleStranded | app/src/main.c:544-547 | for every configuration and sample some run leaves the one sample collected in store_queue |
| Stranded.AllLeftInRaw | app/src/processor.c:75-83 | for every configuration, capacity and list of samples that fits it, some run leaves all of them in raw_queue |
| Unsent.NeverConnected | app/src/uploader.c:213-214 | some run ends with a row pending because the uploader never got a connection |
| Unsent.GivenUp | app/src/uploader.c:247-252 | for every retry limit some run, connected at shutdown, ends with a row that is not uploaded because failing sends have used its retries up |
| Unsent.SelectFailed | app/src/uploader.c:236-238 | for every sample some run, connected at shutdown, ends with its row pending because reading it failed |
| Unsent.MarkedInVain | app/src/uploader.c:247-255 | for every sample and every reader of JSON some run ends with its row marked and all bytes arrived, but no message counted |
| EndToEnd.NothingUnaccounted | app/src/main.c:120 | conservation, by place and by count, after every run |
| EndToEnd.OverwrittenAfterRun | app/src/sample_queue.c:97-108 | after every run each queue has overwritten as many samples as pushes found it open and full |
| EndToEnd.TableBounded | app/src/sqlite_store.c:282-318 | after every run in which trims succeed: at most max(initial, max_cache_count) + 100 rows in the main loop, at most max_cache_count + 100 after the first trim, and at most max_cache_count when the store thread has exited |
| EndToEnd.UploadedOnce | app/src/uploader.c:167-203 | after every run: ids of sent lines strictly increasing, surviving rows up to the last one marked or out of retries, marks exactly where lines were sent or the row was marked from the start |
| EndToEnd.EndToEndOrder | app/src/main.c:95-123 | after every run from an empty table and for every reader of JSON, the messages counted are a subsequence of the samples collected, in order, none repeated and none invented, each equal to its sample in every field but the alarm word, in which exactly the bits of exceeded limits are added |
| EndToEnd.RegistersArrive | app/src/sample.c:64-78 | seven registers on the wire are read off the receiver's message key by key: pH, turbidity, conductivity, sensor status and sequence by value, the temperature signed, the alarm word as reported with the bits of exceeded limits added |
| EndToEnd.ReplyArrives | app/src/sample.c:64-78 | the same for any reply that is a response of at least seven registers, said of its bytes |
| EndToEnd.LossAtShutdown | app/src/main.c:543-556 | after every run that ends: at most one sample lost at each queue's closing, and every other sample accounted for |
| EndToEnd.PendingExactly | app/src/uploader.c:213-264 | with all threads joined no row is pending if and only if, as the uploader tested its flag, none was or it was connected with a batch limit other than zero; only a SELECT that failed and so ended the drain is an exception |
| EndToEnd.PendingAfterRun | app/src/uploader.c:213-264 | every run that ends has such a flag test on its way, which decides what it leaves pending |
| EndToEnd.UploadedExactly | app/src/uploader.c:213-264 | every row is then uploaded if and only if in addition none is out of retries, with the same exception |
| EndToEnd.CountedAfterRun | scripts/run_receiver.py:43-77 | after every run, with everything seen, a message is counted for each line sent if and only if no line is spoilt, and for a given marked row if and only if its own is not |
| EndToEnd.SpoiltLines | scripts/run_receiver.py:67-71 | after every run a sent line is a balanced text if and only if it is not spoilt |
| EndToEnd.CompleteExactly | app/src/uploader.c:213-264 | every row left in the table is counted by the receiver if and only if the uploader drains or nothing was waiting, no row is out of retries, and no row's line is spoilt, with the same exception |
| EndToEnd.CompleteAfterRun | app/src/uploader.c:213-264 | every run from an empty table that ends has such a flag test on its way, which with retries and spoilt lines decides what is counted |
| EndToEnd.ReceiverLives | scripts/run_receiver.py:51-82 | after every run the receiver is alive on each connection, whatever it has seen of it, and has counted every message there |
| Fates.EverySampleWritten | app/src/sqlite_store.c:282-318 | after every run from an empty table each sample written was sent, is still in the table, or was dropped by the second DELETE of a trim whose first found more rows waiting than the limit |
| Progress.StoreEnds | app/src/sqlite_store.c:282-318 | from any place the store thread can come to its end once its flag is up, with store_queue emptied |
| Progress.UploaderEnds | app/src/uploader.c:145-264 | from any place the uploader can come to its end once its flag is up, even if nothing can be sent: each failing try takes a retry from a row |
| Progress.AlwaysFinishes | app/src/main.c:543-556 | after every run, before or after the signal, some continuation without a failing statement ends with all threads joined: no order of flags, closings and joins locks up |
| EndToEnd.EndToEndComplete | app/src/uploader.c:213-264 | the half of that a deployment can arrange: if connected at shutdown, with a batch limit other than zero and neither a failed send nor a failed SELECT in the drain, the receiver counts one message for every line sent, and every row left was sent or is out of retries |

## Left out

- Serial port setup, `select`, `read`, `write` and `modbus_read_registers`: system calls; a reply is any byte string.
- Socket creation, `connect`, `usleep`, deadlines and `timespec_add_ms`: outcomes and timeouts are arbitrary choices of the environment.
- Waiting inside push and pop: a section starts once waiting is over, in any state, since a timed wait may end at any moment. In `Pipeline` a pop that fails although an entry has arrived is the failure of the empty queue that the wait began with.
- SQLite internals: a running query returns rows in id order, each as it was when the query began or inserted since, and passes over no pending row that is still in the table.
- Failing UPDATE statements: the code ignores their results, and the model lets them succeed. INSERT, COUNT, DELETE and the uploader's SELECT may fail; a SELECT that fails and so ends the drain is the exception named in `EndToEnd.PendingExactly`, `EndToEnd.UploadedExactly` and `EndToEnd.CompleteExactly`, kept in the state as `gaveUp`.
- The threads' outer loops and the uploader's main loop are steps of `Pipeline` and `UploadProtocol` on values: they interleave at every step, which one loop cannot express. One turn of the processor, the collector and the store thread, and both drains, are imperative methods too, each run by itself.
- The LED debouncer is not part of `Pipeline`: it touches nothing the other threads see.
- Progress.AlwaysFinishes: says that a run can be completed, not that a scheduler will. The drain itself ends whatever the network does (`Uploader.Uploads.Drain`); before the signal, with a receiver that always refuses, the uploader's main loop retries for ever.
- Runs with upload disabled or with `run_test`, whose shutdown order differs.
- IEEE floating point: measurements are fixed-point, so `%.2f` prints them exactly.
- Wrap-around of the 32-bit counters and ids above 2^31: counters and ids are unbounded.
- The JSON parser of the receiver's language: `Delivery.Understands` says what is asked of it, and `Json.Decode` is one reader that meets it.
- Bytes that are not ASCII: names are printable ASCII, so a character is a byte, and the receiver's UTF-8 decoding cannot fail on uploaded lines.
- Device names with quotes, backslashes, control characters or characters outside ASCII: the uploader copies them unescaped.
- A queue capacity of zero or less: creation fails and main exits.
- Several receivers: each connection is read by one session, in order.
- The lower temperature threshold: it is configured (app/src/processor.c:26), and the code never compares it (app/src/processor.c:47-49).
- Configuration parsing, logging, heartbeat, hex dump, `sample_to_string`, the printed self-tests, the kernel LED driver and its client.
- The parser and the encoder are split into methods for the header checks, the copy loops and the CRC bytes; the source has one function each. `Processor.Debouncer.Debounce` is the debouncing part of the processor's loop body, made a method of its own.
