# Proofs about the network programming tutorial

This project models the parts of the tutorial that carry real logic and proves what they
promise, for every input, every way the kernel may split a transfer and every interleaving:

- **Echo session.** `str_cli` and `str_echo` as two processes over two bounded byte channels
  (`Echo.dfy`), the bytes each client puts on the wire, and the two C loops as methods
  (`EchoPrograms.dfy`).
- **Length-prefixed blocks.** The format and the server's view of a stream (`Blocks.dfy`), and
  `PutBlock`, `GetBlock` and the server loops in C++ and C (`BlockIO.dfy`).
- **Buffered line readers.** The meaning of a bounded line read (`Lines.dfy`), and
  `my_read`/`readline` and `ReadBuffer` as caches over a stream (`Readers.dfy`).
- **Hot-plug pipeline.** Sanitiser and parser (`Netlink.dfy`), the worker thread (`Worker.dfy`),
  the monitor class (`Uevents.dfy`) and its threads interleaved (`Monitor.dfy`).
- **`util::Format`**, the template interpreter (`Format.dfy`).
- **`Socket` ownership** of descriptors (`Ownership.dfy`).

`Kernel.dfy` is one end of a connection: `Read` and `Send` move any number of bytes they are
allowed to, are interrupted a finite but unknown number of times, and may fail. It keeps count of
the calls that failed, which a `send` that accepts nothing counts as, and of the sends that did
not take all their data. Methods that use it know only its postconditions. `WrapSock.dfy` holds the
`SendAll` and `RecvAll` loops and `Bytes.dfy` the shared operations on byte sequences. Errors that
end a C program (`err_sys`, `err_quit`) and C++ exceptions are results.

Code that changes state step by step is a class or a method with its loop, proved against a
function of the old state; what the repository promises is proved about those functions. The
concurrent systems are state machines whose steps are the system calls, the bytes taken from a
buffer, and the steps of the loops between them. A run is any sequence of enabled steps.

`Runs.dfy` says what a run of a system is, once for the session, the worker, the monitor and the
sockets.

## Results worth knowing

- The echo session prints its whole input, however it is scheduled and interrupted, if and only if
  every piece sent is one complete line of at most 1023 bytes, every piece fits the two channels
  (they hold all but one of its bytes), and no signal can interrupt a server that throws
  (`AlwaysServedIff`). Every run is finite and can be extended to its end.
- What fails otherwise is shown by runs: client and server waiting for each other forever
  (`Deadlock`), a server ended by a signal (`CrashRun`), a C client that finishes in no run, because
  it waits for the end of a line that is unterminated or holds a NUL (`HangsC`, `UncleanInputs`),
  and a C++ client that finishes having printed something other than it sent, on any line over
  1022 bytes that finds room in the channels (`MisprintsCxx`, `LongLine`).
- `SendAll`, `RecvAll` and the readers hide every short transfer and every interruption: an error is
  reported if and only if a call failed, so a session of blocks or any sequence of line reads gives
  its exact result in every other case (`SessionOf`, `ReadLines`, `ReadLinesC`). The C `PutBlock`
  sends with `Send`, and a short or interrupted send ends the program (`PutBlockC`).
- A session of blocks makes the trip if and only if each message is not empty, short enough for the
  header and, in C, free of NUL (`RoundTripIff`).
- After every operation of every program the sockets hold exactly the open descriptors, each its
  own, and each is closed once, by the socket that holds it (`OwnershipKept`, `NothingLeaks`).
- An "add" of a partition is reported at the mount point its device has when the worker or a check
  looks, waits if it has none, and expires after 30 s (`ProcessOutcome`, `CheckDecides`,
  `DatagramHandled`); a "remove" is reported as the last look saw it (`RemovalOutcome`).
- An event stays on the pending list through at most 7 checks if these are 5 s apart
  (`ResidenceBound`), and 7 do happen (`SevenChecksHappen`).

Where code and its words differ, the model follows the code:

- C `readline` says it behaves like `fgets`, but it reports a line that `maxlen` cut off as one
  byte longer than it is (`lib/c/readline.c:36-50`).
- `ReadBuffer` asks `read` for `sizeof(read_buf)`, the size of the vector object and not of the
  buffer (`lib/cxx/read_buffer.cpp:13`); here the request size is any number up to the capacity.
- `Format` says it does not mix automatic with manual numbering, but it only refuses a manual
  field after an automatic one (`lib/cxx/format.hpp:63-69`).
- C `GetBlock` computes `block_length+1` in 32 bits (`lib/c/blocks.c:15`). For a header of 2^32-1
  the sum is 0, the buffer is not grown, and the model ends with the outcome `Undefined`.

## Model

| member | source | states |
|---|---|---|
| `Echo.Conservation` | tcp/str_echo/c/str_cli.c:9-17 | for input of any kind, in every state of every run, signals and crashes included, the printed lines followed by what is in the client's buffers, the two channels and the server are exactly the bytes taken from the input; unless the server crashed, the printed lines are the lines of that text whatever the scheduling, and the client never reports a premature end of the server |
| `Echo.PrintsLines` | tcp/str_echo/c/str_cli.c:13-16 | in every run, one in which the server crashes too, the printed lines are the lines of the printed text, none of them empty, one for each iteration completed; only the last can be incomplete, and only if the server crashed; a premature end is reported only of a crashed server whose bytes have all been printed |
| `Echo.LockStep` | tcp/str_echo/c/str_cli.c:7-17 | while every piece sent is a complete line, each iteration prints the piece it sent, and at the loop head both channels and all buffers are empty |
| `Echo.LockStepIff` | tcp/str_echo/cxx/str_cli.cpp:11-19 | at the loop head the lines printed are the pieces sent if and only if those pieces are complete lines of at most 1023 bytes |
| `Echo.PrintsWhatItSent` | tcp/str_echo/c/str_cli.c:7-17 | for pieces as fgets makes them, complete or not, the client never prints anything but the piece it just sent |
| `Echo.Progress` | lib/c/wrapsock.c:105-124 | while the pieces sent are complete lines of which the channels hold all but one byte, some step other than a signal is possible until both processes have ended |
| `Echo.RunBounded` | tcp/str_echo/c/str_echo.c:12-19 | every run is finite: its length is bounded by a weight of the state it starts from, for any input and capacities |
| `Echo.ReachesEnd` | tcp/str_echo/c/str_echo.c:12-19 | from every state there is a run to one where nothing is left to happen but harmless signals |
| `Echo.Completion` | tcp/str_echo/c/str_cli.c:9-17 | with complete pieces that fit, a run that cannot be extended has printed the whole input, emptied the channels and ended both processes |
| `Echo.CompletionIff` | tcp/str_echo/c/str_cli.c:9-17 | for the C client such a run has finished if and only if every piece sent was complete |
| `Echo.Deadlock` | tcp/str_echo/c/str_echo.c:10-14 | a first piece that does not fit, of any kind and length and after any complete pieces, has a run in which client and server wait for each other forever |
| `Echo.DeadlockFreeIff` | tcp/str_echo/c/str_cli.c:9-17 | for every list of complete pieces, no run makes client and server wait for each other if and only if the channels hold all but one byte of each piece |
| `Echo.CrashRun` | lib/cxx/wrapsock.cpp:229-236 | one signal is enough to end a server that throws when its read is interrupted |
| `Echo.AlwaysServedIff` | tcp/str_echo/c/str_cli.c:4-18 | for pieces of any kind: every run that cannot be extended has printed all of them and ended both processes if and only if each is a complete line, each fits the channels, and no signal can make the server throw |
| `EchoPrograms.SentByCExact` | tcp/str_echo/c/str_cli.c:7-11 | the pieces of the C client are complete if and only if the input has no NUL and stops at the end of a line or of a full buffer, and without NUL they are the input |
| `EchoPrograms.SessionC` | tcp/str_echo/c/str_cli.c:4-18 | the C session prints its whole input, however it is scheduled and interrupted, if and only if the input is of that kind and its lines fit the channels |
| `EchoPrograms.SessionCEnds` | tcp/str_echo/c/str_cli.c:9-17 | if the lines fit, each run that cannot be extended has finished if and only if the input is of that kind, and has then printed exactly the input |
| `EchoPrograms.HangsC` | tcp/str_echo/c/str_cli.c:11-14 | on every other input, with channels of any size, the client finishes in no run |
| `EchoPrograms.UncleanInputs` | tcp/str_echo/c/str_cli.c:9-11 | two such inputs: text that stops in the middle of a line, and a NUL before the newline |
| `EchoPrograms.SentByCxxExact` | tcp/str_echo/cxx/str_cli.cpp:9-13 | the pieces of the C++ client are complete if and only if any 1023 consecutive bytes of the input contain a newline |
| `EchoPrograms.SentByCxxIsInput` | tcp/str_echo/cxx/str_cli.cpp:11-13 | the C++ client sends its input, with a newline supplied at the end if it is missing |
| `EchoPrograms.SessionCxx` | tcp/str_echo/cxx/str_cli.cpp:4-20 | the C++ session prints its whole input, however it is scheduled, if and only if no line is longer than 1022 bytes, the lines fit the channels, and no signal can interrupt a server that throws |
| `EchoPrograms.SessionCxxEnds` | tcp/str_echo/cxx/str_cli.cpp:11-19 | a finished C++ client has printed the bytes it sent if and only if no line is longer than 1022 bytes |
| `EchoPrograms.FinishesCxx` | tcp/str_echo/cxx/str_cli.cpp:11-19 | with room for the whole input the C++ client always finishes, however long its lines are |
| `EchoPrograms.MisprintsCxx` | tcp/str_echo/cxx/str_cli.cpp:14-18 | on every input with a longer line, if the channels have room for the whole input and no signal can make the server throw, there is a run that finishes having printed other bytes than it sent |
| `EchoPrograms.LongLine` | tcp/str_echo/cxx/str_cli.cpp:9-14 | such an input: one line and its newline, exactly when the line has 1023 bytes or more |
| `EchoPrograms.StrEcho` | tcp/str_echo/c/str_echo.c:6-20 | everything read before end of file is sent back in order, whatever the transfer sizes and interruptions; an error is reported exactly when a call failed, and then a prefix was sent |
| `EchoPrograms.Exchange` | tcp/str_echo/c/str_cli.c:11-16 | one iteration sends the string in sendline and prints the string of the next line of the peer's bytes, or finds end of file; it breaks off exactly when a call failed |
| `EchoPrograms.StrCli` | tcp/str_echo/c/str_cli.c:4-18 | against a peer that sends anything at all, the loop prints, sends and ends as the function Client says, unless a call failed; then, and only then, it reports an error, having printed and sent a prefix |
| `EchoPrograms.ClientPrints` | tcp/str_echo/c/str_cli.c:13-16 | that function prints the first lines of the peer's bytes, one per fgets line, and stops early exactly when the peer sent fewer |
| `EchoPrograms.ClientSends` | tcp/str_echo/c/str_cli.c:9-11 | that function sends the strings of the fgets lines it got to, including the one left unanswered |
| `EchoPrograms.EchoedInput` | tcp/str_echo/c/str_cli.c:4-18 | against a peer that sends back what it is sent, the client prints its input |
| `WrapSock.SendAll` | lib/c/wrapsock.c:105-124 | over every pattern of short writes and interruptions all bytes are accepted in order; an error is reported exactly when one call failed or accepted nothing, and then a proper prefix was accepted |
| `WrapSock.RecvAll` | lib/cxx/wrapsock.cpp:246-266 | over every pattern of short reads and interruptions the buffer holds exactly the next bytes of the stream; the short-read error comes exactly when the stream ends before them, and reports how many there were; any other error exactly when a call failed; nothing else in the buffer changes |
| `Blocks.HeaderCanonical` | lib/cxx/blocks.cpp:6-8 | any 4 bytes are the encoding of the length they decode to, and of no other |
| `Blocks.FrameBytes` | lib/cxx/blocks.cpp:12-17 | a message goes out as its length modulo 2^32, most significant byte first, and its bytes; a session ends with four zero bytes |
| `Blocks.ServeBytes` | lib/c/blocks.c:10-22 | what the server loop does with any four bytes and what follows them: the length is the first byte times 2^24 plus the second times 2^16 plus the third times 2^8 plus the fourth; fewer bytes than that are a short read, none (or in C a NUL first) ends the session, and in C 2^32-1 overruns the buffer |
| `Blocks.RoundTrip` | tcp/send_block/cxx/tcp_block_server.cpp:23-29 | for every list of sendable messages closed by the empty block, in either dialect, the server loop yields exactly that list in order and leaves every later byte unread |
| `Blocks.ServeInverts` | lib/cxx/blocks.cpp:5-17 | a stream on which the C++ loop stops is the encoding of what it delivered |
| `Blocks.ServedAreSendable` | tcp/send_block/c/tcp_block_server.c:43-50 | whatever the stream, what a server prints are messages that could have been sent |
| `Blocks.RoundTripIff` | tcp/send_block/cxx/tcp_block_server.cpp:23-29 | in either dialect, for every list and whatever follows it, what PutBlock writes of the messages makes the trip if and only if each message is not empty, short enough for the header and, in C, free of NUL |
| `Blocks.Truncation` | tcp/send_block/c/tcp_block_server.c:43-50 | a session cut at any byte before its end delivers exactly the blocks that lie wholly before the cut, and ends with the short-read error |
| `BlockIO.PutBlock` | lib/cxx/blocks.cpp:12-17 | appends the frame of the message; failure, reported exactly when a call failed, leaves a prefix of it |
| `BlockIO.PutBlockC` | lib/c/blocks.c:24-29 | appends the frame of the string in memory; the program ends exactly when one of the two sends, neither of them repeated, failed, was interrupted or was short |
| `BlockIO.GetBlock` | lib/cxx/blocks.cpp:5-10 | takes exactly the next block off the stream, or reports a short read exactly when there is none, and any other error exactly when a call failed |
| `BlockIO.Server` | tcp/send_block/cxx/tcp_block_server.cpp:23-29 | under every chunking and finite number of interruptions the loop prints, ends and leaves the stream as Serve says, unless a call failed; then, and only then, it reports that, having printed a prefix |
| `BlockIO.BlockReader.GetBlock` | lib/c/blocks.c:10-22 | the reused buffer holds the payload and a NUL at its length, reads as the payload's string whatever older blocks left behind, never shrinks, and its capacity stays one plus the largest length seen; a system error is reported exactly when a call failed |
| `BlockIO.CapacityIsMax` | lib/c/blocks.c:7-18 | that capacity exceeds every length seen and is one more than one of them |
| `BlockIO.ServerC` | tcp/send_block/c/tcp_block_server.c:43-50 | the C loop over the reused buffer prints, ends and leaves the stream as Serve says for C strings, unless a call failed, which alone ends it with a system error |
| `Blocks.PartOfSession` | tcp/send_block/cxx/tcp_block_server.cpp:23-29 | of any part of a session that arrives the server prints a prefix of the messages, all of them only for the whole |
| `BlockIO.Client` | tcp/send_block/cxx/tcp_block_client.cpp:12-16 | the client's calls write its messages and the empty block, or a prefix of that exactly when a call failed |
| `BlockIO.ClientC` | tcp/send_block/c/tcp_block_client.c:26-29 | the C client writes the strings of its messages and the empty block, or a prefix of that exactly when a send failed, was interrupted or was short |
| `BlockIO.SessionOf` | tcp/send_block/cxx/tcp_block_server.cpp:23-29 | over one connection the server prints a prefix of what the client was given; if no system call fails, however transfers are split and interrupted, both succeed, it prints exactly that list, and it consumes exactly the bytes written |
| `BlockIO.SessionOfC` | tcp/send_block/c/tcp_block_server.c:43-50 | the same in C, if no call of the server fails and each send of the client takes all its data; the buffer size never wraps |
| `Bytes.CStringStopsAtNul` | lib/c/blocks.c:19-21 | bytes after the terminating NUL do not change what a string is |
| `Lines.TakeLineUnique` | lib/c/readline.c:36-49 | a bounded line read takes the longest prefix of the stream that stays within one line and within the room, and nothing else satisfies that |
| `Lines.ExactIff` | lib/c/readline.c:36-49 | a piece is read back as it is, whatever follows it, if and only if it is one complete line that fits |
| `Lines.SplitLinesPartition` | lib/cxx/read_buffer.cpp:27-43 | reading to end of file partitions the stream: the lines concatenate to it, none is empty or longer than the room, the delimiter is only ever last, and only the last line can be incomplete |
| `Lines.SplitLinesExact` | lib/cxx/read_buffer.cpp:27-43 | complete lines are read back one by one whatever follows them |
| `Lines.SplitLinesAllExactIff` | lib/cxx/read_buffer.cpp:27-43 | all lines are complete if and only if the stream stops at a delimiter or with a full line |
| `Readers.ByteCache.GetChar` | lib/c/readline.c:9-27 | hands out the next byte of buffered remainder plus unread stream, reports end of file only when both are empty, tries again after an interruption, reports an error exactly when a read failed, and then loses nothing |
| `Readers.Readline` | lib/c/readline.c:29-50 | stores the line the unbuffered specification takes, with a NUL after it, leaves the rest pending, and returns its documented count, unless a read failed, which alone gives -1 |
| `Readers.ReturnValueIff` | lib/c/readline.c:36-49 | the count is 0 exactly at end of file, maxlen exactly when the line was cut off, and otherwise the stored length |
| `Readers.RoomIs` | lib/c/readline.c:36-49 | for every maxlen the line taken is the longest prefix of the stream within one line and maxlen-1 bytes; it is empty if maxlen is not positive as an int |
| `Readers.ReadBufferLine` | lib/cxx/read_buffer.cpp:27-43 | returns the line the unbuffered specification takes and leaves the rest pending; it throws exactly when a read failed, and has then lost less than a line |
| `Readers.ReadLines` | lib/cxx/read_buffer.cpp:9-43 | unless a read fails, any sequence of calls returns lines decided by the stream and the arguments alone, whatever the sizes of the reads, the request size and the interruptions, and leaves the rest pending |
| `Readers.ReadLinesC` | lib/c/readline.c:9-50 | the same for any sequence of C calls with one array: the strings stored and the counts returned are those of the same lines |
| `Readers.ReadsAreLines` | lib/cxx/read_buffer.cpp:27-43 | calls with one maxlen take the lines of the partition, and an empty line only after the last |
| `Format.Run` | lib/cxx/format.hpp:101-142 | the one-pass loop gives, for every format string, what parsing the whole template and then evaluating it gives, including the error |
| `Format.FormatItem` | lib/cxx/format.hpp:47-85 | an item is the automatic or manual field its text spells, with the same argument, error and next automatic index |
| `Format.FieldSpelled` | lib/cxx/format.hpp:51-71 | white space is skipped; digits make the field of the decimal number they spell; without digits it is the automatic field; what comes after is ignored |
| `Format.Grammar` | lib/cxx/format.hpp:111-140 | every way a template can begin: a doubled brace is one brace, an opening brace with a closing one after it is a field, and any other character, also a brace that opens or closes nothing, is itself |
| `Format.ParsePrint` | lib/cxx/format.hpp:111-140 | parsing inverts printing, for every template of characters and fields |
| `Format.EvalIff` | lib/cxx/format.hpp:62-75 | evaluation succeeds if and only if every index used has an argument and no manual field follows an automatic one; then each position contributes its own text, the k-th automatic field argument k; otherwise the first misused field decides the error |
| `Format.FormatPrinted` | lib/cxx/format.hpp:101-142 | formatting a printed template gives what the template means, and fails exactly when it is misused |
| `Format.EscapedText` | lib/cxx/format.hpp:113-136 | text with its braces doubled is copied verbatim; without arguments any text is |
| `Format.Numbering` | lib/cxx/format.hpp:62-70 | an all-automatic template gives the same text or error as the one with its fields numbered 0, 1, 2 and so on |
| `Netlink.Sanitize` | netlink/uevent_monitor/python_fixed/netlink.cpp:66-76 | in place, byte 0 becomes newline, bytes 0x20 to 0x7e stay, and every other byte becomes a space |
| `Netlink.SanitizeKeepsFields` | netlink/uevent_monitor/python_fixed/netlink.cpp:66-76 | for any datagram, the lines of the sanitised text are its NUL-separated fields, each sanitised |
| `Netlink.ParserRawData` | netlink/uevent_monitor/python_fixed/uevent_monitor2.py:30-41 | the loop builds the dictionary of the records among the lines, with the receive time kept apart |
| `Netlink.FieldsOfIff` | netlink/uevent_monitor/python_fixed/uevent_monitor2.py:33-36 | a key has a value in the dictionary if and only if the last record of that key gives it that value |
| `Netlink.ParsedFieldsIff` | netlink/uevent_monitor/python_fixed/uevent_monitor2.py:30-41 | the same of the event made of any text, except that the receive time's key is never taken from it |
| `Netlink.MessageRoundTrip` | netlink/uevent_monitor/python_fixed/uevent_monitor2.py:30-41 | joining a header and records of bytes 0x20 to 0x7e with NUL, sanitising and parsing gives exactly those records |
| `Worker.FifoWithStop` | netlink/uevent_monitor/python_fixed/worker_thread.py:26-51 | over every interleaving, tasks are taken once each in the order they were put, and called if callable; one that raises does not stop the worker; and when it exits it has taken exactly the tasks up to the first stop |
| `Worker.CallableParts` | netlink/uevent_monitor/python_fixed/worker_thread.py:26-29 | of any tasks all are called, in order, but those that are not callable |
| `Worker.StopCuts` | netlink/uevent_monitor/python_fixed/worker_thread.py:36-38 | of tasks before a stop all are taken, and of tasks with a stop those up to the first one, itself included |
| `Worker.WorkerThread.Run` | netlink/uevent_monitor/python_fixed/worker_thread.py:31-42 | whatever batches arrive and whenever, the loop calls exactly the callable tasks up to the first stop, logs each of those that raise and goes on, and leaves exactly when there is a stop |
| `Uevents.UeventMonitor.OnReceiveUevent` | netlink/uevent_monitor/python_fixed/uevent_monitor2.py:44-51 | a message of at least 32 characters becomes one task at the end of the queue, a shorter one nothing |
| `Uevents.UeventMonitor.UpdateMountpoint` | netlink/uevent_monitor/python_fixed/uevent_monitor2.py:80-85 | the map is replaced by that of the partitions entered in order |
| `Uevents.MountMapIff` | netlink/uevent_monitor/python_fixed/uevent_monitor2.py:81-84 | a device is mounted where its last entry says, and only if it has one |
| `Uevents.ProcessOutcome` | netlink/uevent_monitor/python_fixed/uevent_monitor2.py:87-137 | an event is an accepted "add" or "remove" if and only if its DEVTYPE is partition, its DEVNAME begins with /dev and its ACTION says so; an "add" is reported at the mount point the table's last entry gives, or becomes pending if there is none; a "remove" is reported with the last known mount point if there is one; nothing else changes the store |
| `Uevents.VisitOutcome` | netlink/uevent_monitor/python_fixed/uevent_monitor2.py:74-78 | a visit expires an event that is more than 30 s old, and reports any other or makes it pending again, as the mount table says at that moment |
| `Uevents.DatagramOutcome` | netlink/uevent_monitor/python_fixed/uevent_monitor2.py:30-51 | a well-formed datagram with those three variables has that effect, from the kernel's bytes to the store |
| `Uevents.UeventMonitor.DoProcessEvent` | netlink/uevent_monitor/python_fixed/uevent_monitor2.py:87-137 | the filters and the two handlers change the worker's data as ProcessOne says and nothing else |
| `Uevents.UeventMonitor.DoCheckPendingEvent` | netlink/uevent_monitor/python_fixed/uevent_monitor2.py:69-78 | the check's loop changes the worker's data as CheckPending says, with a fresh mount table at every visit |
| `Monitor.EventConservation` | netlink/uevent_monitor/python_fixed/uevent_monitor2.py:69-126 | in every reachable state each accepted "add" event is, once, in exactly one of queue, worker, pending list, reported and expired; no other event is in any of them |
| `Monitor.PendingOrder` | netlink/uevent_monitor/python_fixed/uevent_monitor2.py:114-121 | the pending list and the list under check are subsequences of the accepted arrivals, and sorted by receive time |
| `Monitor.QueueIsFifo` | netlink/uevent_monitor/python_fixed/uevent_monitor2.py:44-67 | in every run the queue holds a task for each message of at least 32 characters and each timer, in order, except those taken off its front |
| `Monitor.ProcessIsAtomic` | netlink/uevent_monitor/python_fixed/uevent_monitor2.py:87-126 | whatever the other threads do between taking an event's task and looking at the mount table, the worker's data changes as the method changes them in one go |
| `Monitor.DatagramHandled` | netlink/uevent_monitor/python_fixed/uevent_monitor2.py:44-126 | a well-formed "add" datagram of a partition under /dev, received while the worker is idle, is reported where the mount table says when the worker looks, or becomes pending, whatever the other threads do meanwhile |
| `Monitor.RemovalOutcome` | netlink/uevent_monitor/python_fixed/uevent_monitor2.py:128-137 | in every run a removed partition is reported at the mount point that the last look at the table gave, the look before the threads start included, and not at all if it gave none |
| `Monitor.CheckIsAtomic` | netlink/uevent_monitor/python_fixed/uevent_monitor2.py:69-78 | whatever the other threads do meanwhile, a completed check has done what the method does in one go |
| `Monitor.CheckPendingSplits` | netlink/uevent_monitor/python_fixed/uevent_monitor2.py:74-78 | on a list sorted by time the expired events are a prefix, every other is at most 30 s old, and each of those is reported or pending again |
| `Monitor.CheckOutcome` | netlink/uevent_monitor/python_fixed/uevent_monitor2.py:69-78 | in every run, a check that has visited its list has expired a prefix of it, all older than 30 s; each of the others is at most 30 s old and reported or pending again |
| `Monitor.CheckDecides` | netlink/uevent_monitor/python_fixed/uevent_monitor2.py:69-85 | in every run, an event young enough is pending again if and only if its device was not mounted when the check visited it, and otherwise reported at the mount point of that moment |
| `Monitor.ResidenceBound` | netlink/uevent_monitor/python_fixed/uevent_monitor2.py:27-28 | if checks start at least 5 s apart, no event stays pending through more than 7 of them, whatever the mount table says |
| `Monitor.SevenChecksHappen` | netlink/uevent_monitor/python_fixed/uevent_monitor2.py:64-78 | the bound is reached, by any accepted event whose device never mounts |
| `Ownership.OwnershipKept` | lib/cxx/wrapsock.cpp:16-74 | after every operation of every program, the live sockets hold pairwise different descriptors, exactly the open ones and each the one it was given, and each descriptor closed so far was closed once, by the socket holding it, also when its number was reused; no close(2) failed on a number |
| `Ownership.Effects` | lib/cxx/wrapsock.cpp:12-74 | what each operation does to each socket and descriptor: assignment exchanges two, moving empties one into a new one, closing and destroying close the descriptor held, accepting takes the listener's family, and the others stay |
| `Ownership.AcceptInto` | tcp/send_block/cxx/tcp_block_server.cpp:17-19 | accepting into a socket leaves the new connection in it and every other socket alone, and closes what it held before, if anything, and nothing else |
| `Ownership.NothingLeaks` | lib/cxx/wrapsock.cpp:22-26 | when no socket is left, no descriptor is open, and each one ever handed out was closed exactly once, by the socket that held it and by no other |
| `Ownership.LeavesAllScopes` | lib/cxx/wrapsock.cpp:22-26 | from wherever a program is, destroying its sockets gets there |
| `Ownership.MoveKeeps` | lib/cxx/wrapsock.cpp:28-33 | moving out of a socket keeps that the sockets hold different descriptors and exactly the open ones |
| `Ownership.AssignKeeps` | lib/cxx/wrapsock.cpp:35-41 | so does swapping two, also a socket with itself |
| `Ownership.Kernel.Allocate` | lib/cxx/wrapsock.cpp:16-20 | a new descriptor has a number that is not open, possibly one used before, and is a new ticket |
| `Ownership.Construct` | lib/cxx/wrapsock.cpp:16-20 | the new socket holds the new descriptor, or socket(2) failed, nothing was opened and there is no object |
| `Ownership.Socket.Move` | lib/cxx/wrapsock.cpp:28-33 | the new socket takes over what the old one held, which is left empty |
| `Ownership.Socket.MoveAssign` | lib/cxx/wrapsock.cpp:35-41 | two sockets exchange what they hold, and nothing is closed |
| `Ownership.Socket.Accept` | lib/cxx/wrapsock.cpp:43-60 | the result holds the new descriptor with the listener's family, and the temporary socket closes nothing |
| `Ownership.Socket.Close` | lib/cxx/wrapsock.cpp:70-74 | closes the held number and forgets it, or throws exactly when it is not open and keeps it |
| `Ownership.Socket.Destroy` | lib/cxx/wrapsock.cpp:22-26 | closes what is held, if anything |
| `Ownership.Perform` | lib/cxx/wrapsock.cpp:16-74 | each operation of a program on its objects is a step of the rules, and leaves the objects it does not name alone |
| `Ownership.Program` | lib/cxx/wrapsock.cpp:16-74 | a program is a run of the rules that does its operations in order, passing over those on sockets that do not exist, and then destroys every socket; no descriptor is left open, none was closed twice or by a socket that did not hold it, and each was closed exactly once |

## Left out

- Names, addresses and real system calls (`SocketAddress`, `Sock_ntop`, `Getaddrinfo`, `Gethostbyname`): calls into libraries that are not part of this model.
- `connect_nonb`, `Connect` with a timeout and `Select`: their claims are read off their branches.
- The daytime, UDP, Unix datagram and streamer programs: easier forms of the stream properties.
- `tcp/send_block/python/blocks.py`: `recvall` is RecvAll without interruptions, and `put_block` ignores short sends, so it would add no property of its own.
- `tcp/str_echo/cxx/str_echo.cpp` and the body of the C++ `str_cli` as methods: the session machine covers them, with a server that throws when a signal interrupts its read.
- `tcp/str_echo/cxx/str_cli_istream.cpp`: it throws on an echoed empty line and so does not meet the echo specification.
- Argument parsing, printing, logging and the texts of errors. What the monitor logs about an event is kept in the logs `added`, `expired` and `removed`.
- Failures of realloc and exceptions from `psutil`; `close` fails only on a descriptor that is not open.
- The observer set of `NetlinkUeventMonitor`: one observer is registered. Parsing a message and putting its task is one step of the receiver thread.
- Reading the clock: times are integers in microseconds that never go back.
- Format.Run: does not model overflow of the `int` positions for format strings of 2^31 characters or more.
- Echo.Conservation: does not model a connection reset after the client has exited with bytes still on their way, which can happen only for pieces that are not complete.
- BlockIO.ServerC: does not model what the C program does after the outcome `Undefined`, because C gives its writes beyond the buffer no meaning.
- Readers.ReadBufferLine: does not say how much of a line an error loses, only that it is less than a whole one, because the partial line is discarded by the exception.
