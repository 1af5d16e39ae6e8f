# Verification of the acquisition and command servers

A Dafny 4.11 project that models the data paths of two servers that run on the
acquisition board and proves what they keep. `dafny verify dfyconfig.toml` checks it.

The acquisition server forks one handler per connection. In the handler a reader
thread fills the two halves of a mapped DMA area and a sender thread writes them to
the socket; the right to use a half travels as a one-byte index through two pipes.
The command server's handler forwards length-prefixed command frames from the socket
to a device and the device's status data back to the socket; its two threads share
one parameter record. Under both lie four loops that move an exact number of bytes
through `read` and `write`.

| file | models | form |
|---|---|---|
| `Bytes.dfy` | byte streams and chunk lists | functions |
| `Transfer.dfy` | `readn`, `writen` | methods with loops over descriptor objects |
| `RetryTransfer.dfy` | `read_data`, `write_data` | methods with loops, tied to one function |
| `ChunkFifo.dfy` | the reference: a bounded queue of chunks | functions |
| `Pipeline.dfy` | both acquisition threads, every system call one step | step system |
| `PipelineInvariant.dfy`, `PipelineSafety.dfy`, `PipelineProgress.dfy` | what its runs keep | lemmas |
| `AcqChild.dfy` | the same process in place: mapped area, buffer records, pipes | classes; each method is one step of `Pipeline.Step` |
| `CmdFrames.dfy` | the command protocol and the reset test | functions |
| `CmdServer.dfy` | the chunked device write and the two thread loops | methods with loops |
| `Bridge.dfy` | both command-server threads with the shared record | step system |
| `Supervisor.dfy` | the listen, accept, kill, wait, poll, fork loop | an automaton over the system calls, and methods with loops over a kernel object |
| `IncCheck.dfy` | the sequence checker and its streaming caller | methods with loops |

## Environment

The environment is adversarial. A descriptor carries a script of results for its
coming calls: every partial transfer, interruption, error and return of 0 is possible
in any order; a script that is used up stands for calls that move all they can, so
that every finite behaviour followed by a smooth one is covered. In the step systems
the scheduler and all call results are events, and a statement about `Exec(s, evs)`
holds for every interleaving and every prefix of every run. Assumed are: a call moves
no more than it was asked for; pipes are first in, first out, never lose bytes, and a
one-byte transfer either happens or does not; the DMA device writes only into the half
selected by the `ioctl` before the read (it may change any byte of that half, at any
time until the read returns, even on failure); a process number is not reused while
its process has not been reaped. `wait` may return without reaping: the handlers are
installed with `signal()` (acq_data_trans/main.c:50), and whether a SIGINT interrupts
`wait` depends on it: under System V semantics it does, under BSD semantics `wait` is
restarted, and then it reaps whenever a child exits. Buffer count and size are parameters of the pipeline;
`AcqChild.CreateChild` is the program's instance, two halves of 0x400000 bytes.

## Where the code and its intent differ

* The reset command is never recognised: the test passes the value of
  `sizeof(reset_frame) == 0` as the length of `strncmp`, and a comparison of zero
  characters is equal, so every complete frame goes to the device
  (`CmdFrames.ResetNeverRecognised`, `CmdFrames.WrittenForwardsAll`). The bytes the device
  receives and the number of resets are what was meant if and only if the frames of the
  stream do not include the reset frame (`CmdFrames.ResetExact`; for whole runs
  `CmdServer.ReadNetCmdThread` and `Bridge.BridgeForwards`). For a peer that sends the
  reset frame alone, all 11 bytes reach the device and nothing is reset
  (`CmdFrames.ResetFrameIsForwarded`, as a run `Bridge.ResetFrameReachesDevice`). With the
  full length as argument the test would still stop at the NUL at offset 3
  (`CmdFrames.FullLengthCompareStopsAtNul`).
* The checker's flag says that the start value is valid, yet setting it makes the
  checker ignore the start value, so the test loop misses every break that falls
  between two reads. The total is the number of breaks in the stream if and only if no
  boundary breaks the sequence (`IncCheck.AccumulateErrors`, example
  `IncCheck.BoundaryBreakIsMissed`).
* The polling loop behind `wait` reaps nothing. It is left if and only if `wait` had
  already reaped the handler and some probe gets a clear answer
  (`Supervisor.PollUntilGone`). So a `wait` that returns early is the last thing the
  parent does but poll: it neither serves another connection nor waits again
  (`Supervisor.Serve`, as a run `Supervisor.EarlyWaitRun`). Every other accepted
  connection is forked for (`Supervisor.EveryConnectionIsServed`).

## Model

| member | source | states |
|---|---|---|
| Pipeline.HeldInRange | acq_data_trans/server.c:263-266 | every index a thread holds or finds at the head of a pipe is inside the buffer list |
| PipelineInvariant.InitInv | acq_data_trans/server.c:113-148 | the invariant (ring order, queue contents, output) holds once the dma pipe is seeded |
| PipelineInvariant.StepInv | acq_data_trans/server.c:255-332 | every step of either thread, the device or a signal keeps the invariant, under every result of every call |
| PipelineInvariant.DeviceReadInv | acq_data_trans/server.c:265-280 | a device read into the reader's half, successful or not, disturbs no chunk on its way to the socket |
| PipelineInvariant.SenderReturnRing | acq_data_trans/server.c:320-324 | giving an index back turns the ring of all indices by one place and takes the head off the queue |
| PipelineInvariant.Exec | acq_data_trans/server.c:255-332 | every state a run can reach satisfies the invariant |
| PipelineSafety.StepRefines | acq_data_trans/server.c:255-332 | every step is one legal action of a bounded chunk queue or none; filling enqueues only when there is room |
| PipelineSafety.RunRefines | acq_data_trans/server.c:255-332 | every run is a run of the bounded queue and ends in the state the pipeline stands for |
| ChunkFifo.OutputIsPrefix | acq_data_trans/server.c:309-324 | the queue's output is a prefix of what was enqueued |
| ChunkFifo.DoAllChunks | acq_data_trans/server.c:263-289 | what a run of the queue holds and has output is exactly what was enqueued, in order |
| PipelineSafety.StreamIntegrity | acq_data_trans/server.c:255-332 | in every reachable state socket bytes, the sender's rest, the queued buffers and the reader's buffer are, in this order, exactly the bytes the device delivered |
| PipelineSafety.ZeroLengthRead | acq_data_trans/server.c:265-289 | a device read of length 0 takes a buffer and a place in the queue like any chunk, and adds no byte to the stream |
| PipelineSafety.ZeroLengthReadInRun | acq_data_trans/server.c:265-289 | in any run such a read is one chunk more and the same stream |
| PipelineSafety.BufferOrder | acq_data_trans/server.c:260-281 | the k-th fill and the k-th send both use buffer k mod N; at most N chunks are under way; an index pipe holds at most N-1 bytes when one more is written |
| PipelineSafety.TokensConserved | acq_data_trans/server.c:275-295 | on every path, failures included, each index exists exactly once in pipes and threads |
| PipelineSafety.OneOwner | acq_data_trans/server.c:301-332 | an index in a thread's hands is nowhere else |
| PipelineSafety.ExclusiveOwnership | acq_data_trans/server.c:306-324 | from taking index i until returning it neither the length nor a byte of half i changes, whatever reader and device do |
| PipelineSafety.ExitedKeepsIndex | acq_data_trans/server.c:275-295 | the index of a thread that left its loop is never obtained by the other thread |
| PipelineProgress.ExitReasons | acq_data_trans/server.c:258-296 | a thread leaves its loop exactly on Stop at its test, on a failed pipe or socket call, or on a negative device read; only the signal sets Stop |
| PipelineProgress.NoDeadlock | acq_data_trans/server.c:258-330 | while both threads are in their loops one of them has a step that moves on, and it stays in its loop unless told to stop |
| PipelineProgress.WorkAccounts | acq_data_trans/server.c:258-330 | every advancing step of a run is accounted for by chunks read (four steps each) and indices given back (three steps each) and the threads' places in their present rounds |
| PipelineProgress.GuaranteedYield | acq_data_trans/server.c:258-330 | a run with a advancing steps has returned at least (a - 4N - 4)/7 buffers, and each socket write moved at least one byte |
| PipelineProgress.StopBound | acq_data_trans/server.c:258-304 | Stop is permanent; afterwards at most one more device read and one more buffer taken, each only by a thread already past its test |
| PipelineProgress.ExitStarves | acq_data_trans/server.c:258-330 | without a sender the device is read at most once per free buffer; without a reader only the queued buffers are still taken |
| AcqChild.DmaBuffer.constructor | acq_data_trans/server.c:240-253 | record i is empty and points at offset i times the capacity |
| AcqChild.RecordsMapped | acq_data_trans/server.c:90-109 | the halves are disjoint and inside the mapping |
| AcqChild.Child.constructor | acq_data_trans/server.c:113-148 | the child starts in an initial state of the pipeline |
| AcqChild.CreateChild | acq_data_trans/server.c:85-148 | the program's instance: two halves of 0x400000 bytes, dma pipe 0, 1 |
| AcqChild.Child.DeviceWrites | acq_data_trans/server.c:265-266 | writing one half in the flat area leaves every other half as it was |
| AcqChild.Child.ReadDevice | acq_data_trans/server.c:263-280 | the device read stores its result as the length and moves the reader as in the pipeline |
| AcqChild.Child.PublishIndex | acq_data_trans/server.c:281-285 | the filled index goes to the end of the socket pipe |
| AcqChild.Child.TakeSocketIndex | acq_data_trans/server.c:306-310 | the oldest filled index is taken, and sent only if its length is positive |
| AcqChild.Child.WriteSocket | acq_data_trans/server.c:314-318 | the socket receives the next bytes of the sender's half |
| AcqChild.Child.ReturnIndex | acq_data_trans/server.c:320-324 | the sent index goes to the end of the dma pipe |
| AcqChild.Child.Run | acq_data_trans/server.c:255-332 | any interleaving on the real area does what the step system says; the socket output is a prefix of the delivered bytes |
| Transfer.Readn | general/general.c:20-44 | returns n only with the next n stream bytes in the buffer, less only at end of stream, -1 only on a hard error; nothing else in the buffer changes; always n or all there is when no call fails |
| Transfer.Writen | general/general.c:46-70 | returns n exactly when all n bytes were written, once and in order; -1 only after a hard error or a return of 0; 0 for a negative descriptor |
| Transfer.ThroughPipe | general/general.c:20-70 | a message written into a pipe and then read back is the same as far as it was read; all of it arrives when all was written and no read fails |
| Transfer.PipeIsIdentity | general/general.c:20-70 | writer and reader at the same time, any pipe capacity, partial transfers and interleaving: what was read is a prefix of the message, and both sides come to rest exactly when it is all of it |
| RetryTransfer.RetryBound | private_libary/linux_socket/socket_protocol.c:28-46 | at most eleven calls per byte against any environment |
| RetryTransfer.RetryBoundIsTight | private_libary/linux_socket/socket_protocol.c:34-38 | for every n some environment needs 11 n calls, and the transfer still succeeds |
| RetryTransfer.PatientCompletes | private_libary/linux_socket/socket_protocol.c:28-46 | an environment without an error or eleven zeros in a row lets the transfer complete |
| RetryTransfer.CompletesIffPatient | private_libary/linux_socket/socket_protocol.c:28-46 | a transfer completes if and only if the calls it made hold no error and no eleven zeros in a row |
| RetryTransfer.ReadData | private_libary/linux_socket/socket_protocol.c:22-47 | 1 exactly when n bytes arrived, in order; otherwise -1 with fewer; at most 11 n calls |
| RetryTransfer.WriteData | private_libary/linux_socket/socket_protocol.c:49-74 | 1 exactly when n bytes were sent, in order; otherwise -1 with a shorter prefix; at most 11 n calls |
| CmdFrames.DecodeConcat | cmd_status_trans/server.c:215-256 | a stream may be cut at any frame boundary |
| CmdFrames.FirstRoundsPrefix | cmd_status_trans/server.c:215-256 | what n rounds of the loop read is a prefix of the stream, and all of it when n is at least its length |
| CmdFrames.RoundTrip | cmd_status_trans/server.c:217-247 | decoding gives back the encoded frames, wherever empty headers stand and whatever unfinished frame follows |
| CmdFrames.DecodeIsFaithful | cmd_status_trans/server.c:217-247 | every stream is its decoded frames, empty headers and an unfinished tail |
| CmdFrames.ResetNeverRecognised | cmd_status_trans/server.c:234-238 | the reset branch is never taken, whatever the frame |
| CmdFrames.KeepsAllIff | cmd_status_trans/server.c:234-247 | for any reset test: no byte of the frames is held back, and nothing is reset, exactly when no frame passes the test |
| CmdFrames.WrittenForwardsAll | cmd_status_trans/server.c:234-247 | with the test as written every complete frame is forwarded and nothing is reset |
| CmdFrames.ResetExact | cmd_status_trans/server.c:234-247 | the device bytes, and the number of resets, are the intended ones if and only if the reset frame is not among the frames of the stream |
| CmdFrames.ResetFrameIsForwarded | cmd_status_trans/server.c:214-247 | the reset frame alone: all 11 bytes are forwarded and nothing is reset, where no byte and one reset were meant |
| CmdFrames.FullLengthCompareStopsAtNul | cmd_status_trans/server.c:214-234 | a comparison over the full length would accept every frame with the same first four bytes |
| CmdServer.WritenToCmdStatusDev | cmd_status_trans/server.c:362-378 | the result is len exactly when the device received all of it, else a multiple of 0x1000 with less than one chunk more received; no write asks for more than 0x1000 bytes |
| CmdServer.ReadFrame | cmd_status_trans/server.c:217-225 | a complete frame lies at the start of the 512-byte cache, with nothing stale in it; a read that fails is the last one, and the only way to fall short before the end of the stream |
| CmdServer.ForwardFrame | cmd_status_trans/server.c:234-245 | a frame, or a first part of it when the device fails, follows the frames before it |
| CmdServer.CommandRound | cmd_status_trans/server.c:217-256 | one round takes one header and its frame to the device; the thread goes on unless a call fell short |
| CmdServer.ReadNetCmdThread | cmd_status_trans/server.c:211-258 | when the status word says Stop at test n+1, at most the first n rounds of the stream, empty headers included, are read, and the device receives a prefix of their frames; all of it unless a call fails, and that call is then the last of its kind; without Stop and failure these are the intended bytes and resets if and only if no frame is the reset frame |
| CmdServer.SendStatus | cmd_status_trans/server.c:284-291 | a failed send clears the shared descriptor; a cleared descriptor sends nothing |
| CmdServer.SendStatusDataThread | cmd_status_trans/server.c:261-303 | socket bytes are a prefix of the positive-length device reads, equal while no send failed; the device is read at most once for each test that does not say Stop, and is drained on until Stop or a hard error |
| Bridge.CmdStepInv | cmd_status_trans/server.c:211-258 | every step of either thread keeps: the device has the frames before the current one and the sent part of it |
| Bridge.StatusStepInv | cmd_status_trans/server.c:261-303 | every step keeps: no drained byte is missing while the descriptor is open, and the output stays a prefix afterwards |
| Bridge.BridgeForwards | cmd_status_trans/server.c:121-137 | over every interleaving both directions forward prefixes in order, and everything when the stream is read to its end or the descriptor stays open; the command bytes are then the intended ones if and only if no frame is the reset frame |
| Bridge.BenignRunDelivers | cmd_status_trans/server.c:211-258 | when no stop comes and nothing the command thread or a send calls fails, the command thread leaves its loop only at the end of the stream, with every complete frame forwarded, after at most four steps per byte and three more |
| Bridge.BenignCanMove | cmd_status_trans/server.c:215-245 | until then it always has a step of its own that nothing fails |
| Bridge.ResetFrameReachesDevice | cmd_status_trans/server.c:214-247 | a run in which nothing fails and the reset frame is written to the device |
| Bridge.SegmentationIndependence | cmd_status_trans/server.c:211-258 | two runs over the same stream, each read to its end or left without a stop or a failure, leave the same bytes on the device, those of the complete frames |
| Bridge.ExitReasons | cmd_status_trans/server.c:215-300 | exactly when each thread leaves its loop and when the shared descriptor is cleared |
| Bridge.ClosedForGood | cmd_status_trans/server.c:284-290 | once cleared the descriptor stays cleared, no byte reaches the socket, and at most one more frame is forwarded, only if its body was already being read |
| Bridge.DrainingContinues | cmd_status_trans/server.c:272-291 | after that the status thread is back at the device read within two steps |
| Bridge.EveryRoundIsTested | cmd_status_trans/server.c:215-300 | over any run every length byte, that of an empty header too, is read after a test of the status word of its own, and the device read returns exactly once per passed test |
| Bridge.StopBound | cmd_status_trans/server.c:215-300 | after Stop at most one more length byte is read, one more frame begun, and one more return of the device read, with or without data, each only by a thread already past its test |
| Supervisor.IsProcessAlive | general/general.c:3-18 | 0 exactly when the kernel answers that the process does not exist, else 1: zombies and unclear errors count as alive |
| Supervisor.PollUntilGone | acq_data_trans/server.c:57-67 | the loop is left if and only if wait had already reaped the handler and some probe gets a clear answer |
| Supervisor.EndHandler | acq_data_trans/server.c:55-67 | SIGINT goes to that handler, then one wait, then probes; the parent gets past it only if wait reaped that very handler |
| Supervisor.EveryConnectionIsServed | acq_data_trans/server.c:34-217 | in any sequence of calls in the prescribed order every accepted connection has a fork of its own, except one whose predecessor is still being ended |
| Supervisor.LeavesOnlyOnFailure | acq_data_trans/server.c:27-217 | the parent gives up only when the cleanup thread cannot be created, listen fails, or accept fails after Stop without a cleanup thread |
| Supervisor.StartHandler | acq_data_trans/server.c:70-210 | one fork, then the cleanup thread if there is none yet |
| Supervisor.Serve | acq_data_trans/server.c:26-217 | the parent makes its calls in the prescribed order and stops only where that ends: every accepted connection is forked for unless the parent is still polling; at every fork it has no child, alive or unreaped, and there is never more than one handler; a wait that does not reap is followed by nothing but polling |
| Supervisor.EarlyWaitRun | acq_data_trans/server.c:39-67 | a run in which wait returns early and the handler then exits: the second connection is never forked for and no other is accepted |
| IncCheck.Succ | acq_data_trans/test.c:103 | increment of a char is plus 1 modulo 256 |
| IncCheck.Pred | acq_data_trans/test.c:99 | the only byte that is continued by the given one |
| IncCheck.CountIsBreaks | acq_data_trans/test.c:101-110 | the count is the number of positions whose byte is not its predecessor plus 1 modulo 256 |
| IncCheck.CountConcat | acq_data_trans/test.c:94-111 | counting a stream in two parts, the second from the last byte of the first, adds up |
| IncCheck.CountFromOwnPredecessor | acq_data_trans/test.c:97-100 | with the flag set exactly the first comparison is lost |
| IncCheck.InnerBreaksOnly | acq_data_trans/test.c:97-100 | started from the predecessor of its first byte, a buffer has just the breaks between its own bytes |
| IncCheck.CheckDataInc | acq_data_trans/test.c:94-111 | returns the number of positions that are not plus 1 modulo 256: all of them, the first against the start value, or with the flag set those between the bytes of the buffer |
| IncCheck.AccumulateErrors | acq_data_trans/test.c:41-84 | the running total is the breaks of the whole stream minus those at boundaries between reads, so it is exact if and only if no boundary breaks the sequence |
| IncCheck.BoundaryBreaksZero | acq_data_trans/test.c:66-74 | no boundary break is counted exactly when every read starts where the one before it left off |
| IncCheck.BoundaryBreakIsMissed | acq_data_trans/test.c:66-74 | two one-byte reads whose break is not counted |

## Left out

- CmdServer.ReadNetCmdThread: the descriptor stays valid in this sequential form; that the other thread clears it is in `Bridge`.
- Bridge.BridgeForwards: both threads are modelled on values; the shared record as an object, and its update in place, is in `CmdServer`, one thread at a time.
- Supervisor.Serve: safety only; that a handler reacts to SIGINT, and the cleanup thread, are not modelled (the command server's cleanup record keeps only the first child, cmd_status_trans/server.c:161-181, and a child whose device does not open starts no cleanup thread, cmd_status_trans/server.c:110-113).
- RetryTransfer.ReadData: lengths above INT_MAX, which the source turns into a negative int, are excluded; so they are for `WriteData`, whose negative lengths are excluded too.
- IncCheck.AccumulateErrors: reads of length 0 are excluded because the source then reads the byte before the buffer (acq_data_trans/test.c:74); overflow of its byte counter is not modelled.
- AcqChild.Child.Run: each method is one step of a thread's loop; the loops themselves are the schedule.
- Failures of memory allocation, `pipe` and thread creation in the handlers: the handler exits at once.
- Socket setup, `mmap`, `ioctl`, opening devices, `reset_hardware` and `clear_thread`: foreign calls and process exit.
- The one-time IP frame to the spm device (cmd_status_trans/server.c:15-45): one call of the chunked write.
- `create_netsock_server`: it compares the result of `read_head_frame`, 1 or -1, with the size of the header, so it makes no delivery promise.
- `read_head_frame`, `init_head_frame`, `close_fd`: a call of `read_data`, plain assignments, and a close that is commented out.
- `main`, signal registration, logging, sleeps: only the Stop flag is kept; sleeps are no-ops.
- SIMU_MODE, serial port, time and string helpers, thread wrapper: table lookups and library wrappers.
