# Verified models of the Linux system-programming examples

This project models the concurrent protocols and the byte-level data handling of a
repository of small Linux programs, and proves what they guarantee.  It covers eight of
them: a shared-cursor printer under a System V semaphore, record editing under `fcntl`
locks, a chat of two processes over one FIFO, a POSIX semaphore with blocking and
polling clients, a request and reply over two pipes, typed System V message queues, a
growable address book, and a shared balance under a mutex.

`dafny verify dfyconfig.toml` checks everything.

## How the programs are modelled

* Each concurrent program is a step machine.  A `State` holds the shared data, a place
  in the code for every thread or process, and its locals; `Step` is one access to a
  shared variable (`x++` is a load and a later store), one system call, or one half of
  an `open`; `Next` lets any enabled thread step.  A statement about every
  `IsRun(Next, tr)` (module `Runs`) is a statement about every interleaving.  The fixed
  numbers of the programs (two threads, one text, one amount, one permit) are arbitrary.
* Beside the machine stands a class with the program's own variables as fields and one
  method for each access, which changes the fields as the C code does and is proved to
  be that `Step`.  A last method follows the whole program with the scheduler's choice
  left open; its proof obligations include that some thread can always step and, except
  for the endless chat loops, that the program ends.  Its contract says
  that the final state is reached from the given one (`Reaches`) and what holds there.
* Histories (what was printed, who got a lock in which order, what was sent) are part of
  the state; nothing in a step depends on them.
* A C string is a `string` without a NUL; a buffer is a `string` of fixed length, so that
  bytes left over from earlier contents are there to be shown harmless (`Buffers`).

Some points of interpretation:

* `open` on a FIFO follows the rule of POSIX.1-2017, System Interfaces, `open()`, as Linux
  implements it: an open that has begun counts as an open end for the other side, and a
  match is remembered even if the partner has closed again.
* A lock of length 0 reaches to the end of the file without limit (POSIX.1-2017, System
  Interfaces, `fcntl()`).  The conditional with its middle operand left out at
  record_lock_test.c:13 yields 1, which is `F_WRLCK` on Linux.
* The comment at fifo/write_fifo.c:13-14 says that write_fifo reads first and read_fifo
  writes first.  The code does the opposite, and the model follows the code.
* At malloc_example.c:53 the second comparison looks at `yn[1]`, so that the answer `Y`
  adds nobody, while at line 73 it does count as yes.
* Key 0 of sysv_mq_example.c is `IPC_PRIVATE` on Linux, for which `msgget` makes a new
  queue every time, as the notes at SysV/sem_example.c:138 say of `semget`.
* What the processes of record_lock_test.c make of their records is left open in the
  machine: with the program's own edit the final contents do not depend on the order of
  the processes at all (`PointwiseResult`), and serialisability would say little about
  the locks.

## Findings

* SysV/sem_example.c with the semaphore off.  A thread that stores an old value takes the
  cursor back, so characters are printed again: that happens in some run exactly if there
  are two threads or more and a text (`TwiceIff`, `PrintedOnceIff`).  Still every run ends
  with no character left out.  For N threads and a text of n characters the exact maxima
  over all schedules are, with C the binomial coefficient (`Choices(k + 1, m)` is
  C(k + m, m), by `Counting.ChoicesFactorial`) and n not 0:
  * C(n + N, N) - 1 fetched positions, so 9 for two threads and three characters;
  * n + C(n + N - 2, N - 2) - 1 for the position read, so n with the two threads `main`
    starts, which is the terminator, and 2 n with three; every read stays inside
    `shared_buf` exactly for at most two threads (`InsideIff`).
* With the semaphore on, the same torn increment loses nothing: the positions are fetched
  in order, each once (`CursorProtected`).
* `sysv_mq_example -s -k 0` reports a text as sent that no `-r -k 0` ever finds; the keys
  that deliver are exactly the others (`DeliversIff`).
* The comparison in malloc_example.c:84 finds a person entered again unchanged to be
  different exactly when the record lies in memory from `realloc` that held something
  other than zeros behind one of the strings.  The book shown afterwards is right either way.

## Model

| member | source | states |
|---|---|---|
| PrinterModel.CommonRun | SysV/sem_example.c:42-54 | in either mode no position before the cursor is left out, none of the text once a thread has seen its end, and the number of steps taken can be read off the state |
| PrinterModel.OrderedStep | SysV/sem_example.c:18-54 | with the semaphore, or one thread, every step keeps: at most one thread between P and V, a loaded value equal to the cursor until it is stored, and the output the text up to the last position fetched less at most one character in hand |
| PrinterModel.MutualExclusion | SysV/sem_example.c:18-32 | no two threads are ever between P and V, and the semaphore is 0 while one is |
| PrinterModel.CursorProtected | SysV/sem_example.c:43-53 | the semaphore makes load and store of `shared_index++` one: positions are fetched in order, each once, and only inside the text |
| PrinterModel.OutputInCase | SysV/sem_example.c:47-51 | in either mode every character printed is that at a position fetched (the terminator behind the text), with no capital from a thread with index 0, no small letter from any other, letters moved by the 32 between the cases and all else unchanged |
| PrinterModel.OneCase | SysV/sem_example.c:47-48 | threads that all have index 0 print no capital, threads none of which has it print no small letter |
| PrinterModel.CreatedInOrder | SysV/sem_example.c:82-88 | when the thread created last exists all do |
| PrinterModel.OrderedOutput | SysV/sem_example.c:43-53 | with the semaphore, or one thread, the output is always a prefix of the text, character by character in order and in the case of the thread that printed it; when the semaphore is free it has exactly the length of the cursor |
| PrinterModel.CompleteAtAnyExit | SysV/sem_example.c:42-55 | once any one thread has left its loop the whole text has been printed, each character in the case of its thread |
| PrinterModel.NoDeadlock | SysV/sem_example.c:18-54 | in either mode some thread can step until all have exited |
| PrinterModel.GuardedRunLength | SysV/sem_example.c:42-55 | with the semaphore, or one thread, every schedule takes at most 6 text length + 4 N steps, can be continued until all threads have exited, and has then taken exactly that many |
| PrinterOutput.ConservedStep | SysV/sem_example.c:46-52 | in either mode every step keeps: what is printed and what is in hand is, up to case, what stands at the positions fetched |
| PrinterOutput.NothingLost | SysV/sem_example.c:42-54 | in either mode, when all threads have exited, every character of the text has been printed at least as often as it occurs in it, and the output is what stands at the positions fetched |
| PrinterShadow.Shadow | SysV/sem_example.c:44-48 | every run of the printer, in either mode, moves the cursor as the machine of checks, loads and stores can |
| PrinterShadow.Imitate | SysV/sem_example.c:44-48 | with the semaphore off every run of that machine is the cursor's part of some run of the printer |
| PrinterCursor.LoadsStep | SysV/sem_example.c:44-48 | the loads done plus those a potential still allows never grow, also when a store takes the cursor back |
| PrinterCursor.LoadsBounded | SysV/sem_example.c:44-48 | N threads load the cursor at most C(text length + N, N) - 1 times |
| PrinterCursor.RoomStep | SysV/sem_example.c:44-48 | the distance the cursor can still climb never grows, and shrinks with every load behind the text |
| PrinterCursor.ReachBounded | SysV/sem_example.c:44-48 | the cursor never passes text length + C(text length + N - 2, N - 2), and every position read lies before that |
| PrinterSchedules.MostLoads | SysV/sem_example.c:44-48 | for every length and N a schedule with exactly that many loads |
| PrinterSchedules.FurthestReached | SysV/sem_example.c:44-48 | for every text that is not empty and every N a schedule that reads the last position before that bound |
| PrinterUnlocked.RunsAreFinite | SysV/sem_example.c:42-54 | in either mode every schedule ends, within 6 (C(text length + N, N) - 1) + 4 N steps |
| PrinterUnlocked.LongestRun | SysV/sem_example.c:42-54 | with the semaphore off some schedule takes exactly that many steps, for every text and N |
| PrinterUnlocked.ReadsUpToIff | SysV/sem_example.c:44-48 | with the semaphore off a number bounds every position read in every run exactly if it is at least text length + C(text length + N - 2, N - 2) - 1 |
| PrinterUnlocked.OvershootIff | SysV/sem_example.c:44-48 | with the semaphore off all reads stay within text length + N - 2 exactly if N <= 2 or the text is one character |
| PrinterUnlocked.InsideIff | SysV/sem_example.c:35-48 | every read in every run is inside shared_buf exactly if the semaphore is used, N <= 2, or the text is empty |
| PrinterUnlocked.FewThreads | SysV/sem_example.c:44-48 | the furthest position read: the last character for one thread, the terminator for two, twice the text length for three |
| PrinterUnlocked.SameCharacterTwice | SysV/sem_example.c:44-48 | with the semaphore off and two threads or more, a run to fetched positions 0 and 0 |
| PrinterUnlocked.TwiceIff | SysV/sem_example.c:43-53 | some run fetches a position twice exactly if the semaphore is off, N >= 2 and the text is not empty |
| PrinterUnlocked.PrintedOnceIff | SysV/sem_example.c:42-55 | every complete run prints the text's characters exactly once, up to order and case, exactly if the semaphore is used, N is 1 or the text is empty |
| PrinterProgram.Process.constructor | SysV/sem_example.c:64-81 | the semaphore starts at 1, the cursor at 0 and the threads with the indices they are given |
| PrinterProgram.Process.RunToFirstJoin | SysV/sem_example.c:82-89 | under any schedule main's first join, on the thread created last, returns, after a run of the machine; with the semaphore on, or one thread, the whole text has then been printed, each character in the case of its thread |
| RecordFile.OverlapsIffCommonByte | record_lock_test.c:10-19 | the conflict test on range ends finds exactly the pairs of ranges with a common byte, also for length 0 |
| RecordFile.LockDeniedIff | record_lock_test.c:10-19 | record_lock refuses a lock exactly when the range begins before the file or shares a byte with a range another process holds |
| RecordFile.WriteAtBytes | record_lock_test.c:61-62 | what a write leaves at every byte, and the new length, with gaps filled by zeros |
| RecordFile.ReadAtBytes | record_lock_test.c:49 | a read returns as many bytes as the file has from the offset on, up to the number asked for, and they are the file's |
| RecordFile.LoadIsWindow | record_lock_test.c:24-52 | because the buffer starts as zeros, a short read at the end of the file agrees with a read of a hole |
| RecordFile.Commute | record_lock_test.c:43-62 | processes whose ranges share no byte can be run in either order with the same file, even when both extend it |
| RecordFile.MoveToEnd | record_lock_test.c:43-62 | a process apart from all later ones may as well run last |
| RecordMachine.OthersLeaveRange | record_lock_test.c:43-72 | while a process holds its lock no step of another changes a byte of its range, also when the range reaches to the end of the file |
| RecordMachine.WriteExtendsSerial | record_lock_test.c:43-62 | a write yields the serial result with the writer in its place by lock order |
| RecordMachine.StepKeepsInv | record_lock_test.c:38-72 | every system call of every process keeps the locks apart, the records read current and the file serial |
| RecordTheorems.RecordsExclusive | record_lock_test.c:43-72 | no two processes between lock and unlock share a byte |
| RecordTheorems.RangeStays | record_lock_test.c:43-72 | from any reachable state on, as long as a process holds its lock and neither writes nor unlocks, every byte of its range stays as it is, whatever the others do |
| RecordTheorems.ReadsStayCurrent | record_lock_test.c:43-62 | what a process read stays what the file holds in its record until its own write; after the edit it has the edit of those bytes, before and after the rewind, and its write stores exactly this |
| RecordTheorems.Serialisable | record_lock_test.c:24-72 | in every reachable state the file is what the processes that have written make of the file of the start, run one after another in the order of their locks; when all have finished, those are exactly the ones that got a lock |
| RecordTheorems.RejectedIff | record_lock_test.c:38-46 | a process ends without a lock exactly if its range is longer than 1024 bytes, begins before the file, or when it asks shares a byte with the range of a process between lock and unlock |
| RecordTheorems.NeverBlocks | record_lock_test.c:38-74 | no process ever waits, and every schedule ends within 8 steps a process |
| RecordTheorems.ApartJobsAllSucceed | record_lock_test.c:43-46 | processes whose ranges share no byte are never refused |
| RecordTheorems.PointwiseResult | record_lock_test.c:48-62 | each byte covered by a process that has written is 'x' where that of the start (zero beyond the old end) was '0' or '9', so that neither is left there; every other byte is that of the start, and the length is the largest of the old length and the ends of the non-empty ranges written |
| RecordProgram.LockedFile.SetRecordLock | record_lock_test.c:10-19 | returns -1 exactly on a conflict or a negative start, and changes the lock table accordingly |
| RecordProgram.LockedFile.Read | record_lock_test.c:49 | stores the bytes from the offset to the end of the file, or as many as asked for, at the beginning of the buffer, leaves the rest of it, and returns their number |
| RecordProgram.EditRecord | record_lock_test.c:55-60 | in the record '0' and '9' become 'x', every other byte stays, and so does the rest of the buffer |
| RecordProgram.Process | record_lock_test.c:36-73 | main alone: in the bytes of the range '0' and '9' become 'x' and the file reaches to its end, or it stays, exactly as the length test and the lock decide, and no lock is left behind |
| RecordProgram.Workers.RunAll | record_lock_test.c:21-74 | the given processes under any schedule all finish, and leave what those that got a lock make of the given file one after another |
| Buffers.StoredString | fifo/write_fifo.c:33-45 | a terminated string stored in a buffer is exactly the string the buffer then holds, whatever longer one it held before |
| Buffers.CountToTerminator | fifo/write_fifo.c:37 | strlen |
| ChatModel.StepKeepsInv | fifo/write_fifo.c:31-46 | every step of either process keeps the turn-taking, the matching of opens, and the one message in the pipe |
| ChatTheorems.Delivery | fifo/read_fifo.c:23-37 | each side prints a prefix of what the other entered, in order, with at most one message on its way and turns alternating from write_fifo on |
| ChatTheorems.CallsSucceed | fifo/write_fifo.c:36-43 | no process is killed by SIGPIPE, no write blocks, and every read that returns gets exactly the one message its side has not yet printed |
| ChatTheorems.NoDeadlock | fifo/write_fifo.c:36-43 | in every reachable state one of the processes can step |
| ChatTheorems.BlockedIsReleased | fifo/read_fifo.c:25-36 | every blocked open or read is released by the other side's next open or write, at most six of its steps away, and each of those steps comes nearer |
| ChatTheorems.KeepsPace | fifo/read_fifo.c:23-37 | in every schedule of 20 k + 4 steps each side has printed at least k messages |
| ChatProgram.Terminal.Fgets | fifo/write_fifo.c:33 | inputbuf holds the line, terminated |
| ChatProgram.Terminal.OutgoingBytes | fifo/write_fifo.c:37 | strlen(inputbuf)+1 bytes are the string and its terminator |
| ChatProgram.Terminal.ShowReceived | fifo/read_fifo.c:26-29 | whatever readbuf still holds from before, exactly the message just received is shown |
| ChatProgram.Conversation.Converse | fifo/read_fifo.c:23-37 | both loops for any number of steps under any schedule never get stuck; what the sides enter is drawn in order from the given lines, and delivery and pace are kept |
| SemaphoreModel.PermitsConserved | POSIX/sem_posix_example.c:11-51 | value plus holders stays the number of permits, and the semaphore is destroyed only when every thread has returned its permit |
| SemaphoreModel.BlockedIff | POSIX/sem_posix_example.c:11-48 | sem_wait waits exactly while all permits are with other threads, sem_trywait never, and fails exactly then |
| SemaphoreModel.FailedPollHasHolder | POSIX/sem_posix_example.c:30-38 | sem_trywait fails only while another thread holds a permit, whose next step frees one |
| SemaphoreModel.UsefulStep | POSIX/sem_posix_example.c:11-75 | until the semaphore is destroyed a step other than a failed poll is possible |
| SemaphoreModel.RunLength | POSIX/sem_posix_example.c:11-75 | a run with r failed polls takes at most 3 N + 1 + 2 r steps and has ended exactly when it has taken that many |
| SemaphoreProgram.Process.SemTryWait | POSIX/sem_posix_example.c:31-42 | takes a permit and returns 0, or returns -1 when there is none |
| SemaphoreProgram.Process.RunToEnd | POSIX/sem_posix_example.c:53-79 | under any schedule with finitely many failed polls the program ends with the threads it began with all returned and all permits back |
| PipeModel.CallsSucceed | pipe_example.c:37-60 | every write finds an open read end and room, and the reply is in the pipe when wait has returned, so the parent's read does not block |
| PipeModel.ExchangeCompletes | pipe_example.c:33-63 | every schedule runs exactly 14 steps without getting stuck, and both sides then hold what the other wrote, up to 128 bytes |
| PipeModel.ArrivesCompleteIff | pipe_example.c:35-44 | a text arrives complete and terminated exactly when it has fewer than 128 characters; of a longer one the first 128 arrive |
| PipeProgram.Exchange.RunToEnd | pipe_example.c:33-64 | under any schedule both processes end, with the other's text, or its first 128 characters |
| MessageQueueModel.ParseMeans | SysV/sysv_mq_example.c:67-94 | the usage message comes exactly for an unknown option, a type below 1, or neither -s nor -r; else the last of these is done with the last type and key given, or 1 and 1234 |
| MessageQueueModel.ParseUnique | SysV/sysv_mq_example.c:72-94 | the options determine what is done, and only a positive type gets through |
| MessageQueueModel.RemoveFirst | SysV/sysv_mq_example.c:54 | a receive takes the oldest text of its type and leaves those of other types in order |
| MessageQueueModel.SendQueues | SysV/sysv_mq_example.c:38-46 | a send adds its text, "a message at " and the time up to 79 characters, under its type to the queue msgget returned and to no other; for key 0 that is a new one |
| MessageQueueTheorems.InvocationDoes | SysV/sysv_mq_example.c:32-63 | in every run an invocation adds one report, with the key and the type of its options: Sent or QueueFull for -s by the room in the queue, with the message as it is queued, Received or NoMessage for -r by whether there is one of the type; the other queues stay |
| MessageQueueTheorems.SendThenReceive | SysV/sysv_mq_example.c:97-108 | with a key other than 0, room, and nothing of the type queued, `-s` and then `-r` report the same text, "a message at " and the time, whole up to 66 characters of it |
| MessageQueueTheorems.SentIsReceivedPlusQueued | SysV/sysv_mq_example.c:32-63 | for each key and type the texts sent are those received, in order, and those still queued; with key 0 none is received and all lie in private queues |
| MessageQueueTheorems.SharedKeyDelivers | SysV/sysv_mq_example.c:50-63 | with a key other than 0 a receive reports the next text sent under its key and type, and no message exactly when all have been received |
| MessageQueueTheorems.PrivateFindsNothing | SysV/sysv_mq_example.c:97-106 | with key 0 every receive reports no message |
| MessageQueueTheorems.PrivatePair | SysV/sysv_mq_example.c:85-106 | `-s -k 0` followed by `-r -k 0` reports a text sent and then no message |
| MessageQueueTheorems.DeliversIff | SysV/sysv_mq_example.c:97-106 | a key delivers in every run exactly if it is not 0, or no queue has room for a message |
| MessageQueueProgram.ParseOptions | SysV/sysv_mq_example.c:67-94 | the last -s or -r, -t and -k count; the usage message comes exactly for an unknown option, a type that is not positive, or no mode |
| MessageQueueProgram.Queues.Scan | SysV/sysv_mq_example.c:54 | finds the first message of the type |
| MessageQueueProgram.Queues.MsgGet | SysV/sysv_mq_example.c:97 | finds the queue of a key, makes it when it is missing, and makes a new one each time for key 0 |
| MessageQueueProgram.Queues.Invoke | SysV/sysv_mq_example.c:65-110 | main: parses, gets the queue, and sends or receives |
| AddressBookModel.BytesInjective | malloc_example.c:5-11 | two structures with equal bytes have equal fields |
| AddressBookModel.SameBytesIff | malloc_example.c:82-84 | memcmp against the freshly entered record is zero exactly when all strings match and the memory the old record was entered into held only zeros behind them |
| AddressBookModel.SameBytesIffSameStrings | malloc_example.c:43-48 | in the calloc block memcmp decides whether all strings match |
| AddressBookModel.SameStringsDifferentBytes | malloc_example.c:58-63 | in the realloc block a record with the same strings can be found different |
| AddressBookProgram.InputPersonInformation | malloc_example.c:96-110 | fills exactly the chosen entries and numbers them from pidx |
| AddressBookProgram.CreateBook | malloc_example.c:43-48 | entry i carries number i + 1 and shows person i |
| AddressBookProgram.GrowBook | malloc_example.c:53-66 | keeps every record and adds the new people behind them, exactly for the answer y |
| AddressBookProgram.GrownBook | malloc_example.c:58-64 | growth continues the numbering and shows the old people and then the added ones |
| AddressBookProgram.KeptIff | malloc_example.c:82-84 | in the book main has built, the chosen record is found the same exactly if all strings are entered again and, for a person added, realloc's memory held only zeros behind them |
| AddressBookProgram.ChangeBook | malloc_example.c:77-89 | changes at most the chosen record, which keeps its number and shows what was typed; a difference in any string is always found |
| AddressBookProgram.Program | malloc_example.c:30-94 | the final book is numbered from 1 and has the added people exactly for the answer y; after y or Y to the change and an index in the book that record shows what was typed, every other shows its person; and main says that the number is wrong, that the information is the same, or prints the new book, exactly as index, strings and memory decide |
| BalanceModel.BalanceConserved | pthread_example.c:10-35 | the balance is always the start less the amounts of the threads past their store, and after all joins the start less the sum |
| BalanceModel.RunLength | pthread_example.c:10-33 | every schedule takes exactly 5 N steps to the last join and never sticks |
| BalanceProgram.Account.RunToEnd | pthread_example.c:23-35 | under any schedule what main prints is the start less the sum of the amounts |

## Left out

- Console texts, `sleep` and `perror`: they affect only display and timing.
- System calls that fail for other reasons than those modelled: the programs exit or ignore it.
- The second join on the same thread and `SEM_UNDO` at exit in SysV/sem_example.c: the first has no defined meaning, the second is kernel bookkeeping after the protocol.
- PrinterModel.Cell: gives the terminator for every position past the text; what lies behind the array in memory is not modelled.
- Negative record lengths, and unlocking a part of a locked range: the program never does the second.
- RecordMachine.Step: one `read` and one `write` are single steps, as POSIX promises for regular files.
- Creating the FIFO, and end of input in `fgets`: both loops start with the FIFO there and lines coming.
- A line typed longer than 1023 characters reaches the loops as several lines, one for each `fgets`.
- PipeModel.Init: messages longer than the pipe's capacity, whose write would block half-way.
- `msgrcv` with types that are not positive: the options never let one through.
- Strings that do not fit their field in `scanf`, answers of more than one character, sizes beyond the range of `int` in malloc_example.c, and overflow of the balance in pthread_example.c: undefined in C.
- Sockets, POSIX message queues, shared memory, signals, `mmap`, standard I/O and the other single-call examples: no protocol of their own.
