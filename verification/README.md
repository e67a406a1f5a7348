# Verification of cc-oci-runtime

A Dafny model of the parts of the Clear Containers runtime in which something can go
wrong between two programs or between two runs of one program:

- **The I/O multiplexer.** `Vm` is the proxy's VM object with its routing table of stream
  numbers. `IoFrame` and `Shim` are the shim: reassembly of frames from partial reads and
  the exit state machine. `Multiplexer` puts table, router, byte channels and shims into
  one step system and proves end-to-end delivery over every run, and `Progress` that
  deliveries can always be completed. `Teardown` adds the lock
  and the goroutines and proves that closing down is safe and finishes. `Registry` is the
  table of VMs by container id and its handlers.
- **State persistence.** `Json` flattens a JSON tree into nodes with separators, `Records`
  and `SpecHandlers` recover mounts, hooks and namespaces from that shape, `StateFile`
  writes and reads the state file, `StateReading` says what the reader makes of any file,
  and `Rewrite` follows it through any history of pause,
  resume and kill with failing writes, signals and proxy calls.
- **Version comparison.** `Semver` is the comparison as the code makes it, next to item 11
  of Semantic Versioning 2.0.0: where the two agree, and for each kind of number and
  identifier the largest domain on which they can.
- **Splitters and framers.** `Qmp` is the CRLF splitter of the QMP connection and `Rpc`
  the framing and the serving loop of the proxy protocol, for every way the bytes may be cut.
- **Restoration and bits.** `MountTree` is mounting and its undoing, `FdTable` is
  `dup_over_stdio` on a table of descriptors, `PrefixLength` the netmask loops.

`BigEndian`, `CStrings`, `Decimal`, `Pipe` and `Option` are shared. `dafny verify dfyconfig.toml` checks
all of it.

Code that changes things in place is a class or a method with loops, proved against a
function of the old state; what the repository promises is then proved about that
function. Reads of a socket take any positive number of the bytes that wait, so a contract
of such a method holds for every chunking, and a write may send any first part. Failures of the outside world (writes, signals,
sockets, `mount`, `dup`) are parameters or nondeterminism.

Some properties that one would expect turn out not to hold of the code. Each of them has
the exact condition under which it does, and an input or a run at which it fails:

- A stream count outside 1 to 2 is reported but not stopped; a negative one moves the counter
  back over numbers in use (`Vm.AllocateSoundIff`, `Vm.AllocateAccountedIff`,
  `Vm.NegativeCountReissues`).
- `CloseIo` counts from the number it is given, not from the session's base
  (`Vm.RemoveExactIff`, `Vm.CloseIoOfSecondNumber`).
- The allocated number passes through a C `int` (`Vm.ShimSeqNoIff`, `Vm.ShimSeqNoLost`).
- A client that cannot be written to stops the router for good, and the VM object is then
  never torn down: that happens exactly after a failed read (`Teardown.TeardownIff`,
  `Teardown.NoTeardownAfterWriteError`, `Teardown.WriteErrorRun`).
- A hello whose Connect fails deletes its container id even if another VM has been
  registered under it meanwhile (`Registry.TakesAnotherIff`,
  `Registry.FailedHelloTakesAnother`).
- `ReadMessage` takes its header from a single read (`Rpc.ReadAllIff`,
  `Rpc.SplitHeaderFails`), and the C writer counts characters where the frame counts bytes
  (`Rpc.ProxyMsgWriteIff`, `Rpc.TwoByteCharacter`).
- Identifiers that are not numbers are compared by `strcmp`, which makes a cycle
  (`Semver.PrecedenceCycle`, `Semver.AboveNumbersIff`), differences of numbers are cut to 32
  bits (`Semver.NumberPairIff`, `Semver.NumbersAgreeIff`, `Semver.LargeNumberEqual`), and
  build metadata with a hyphen is taken for a pre-release (`Semver.MetadataIgnoredIff`,
  `Semver.HyphenInMetadata`).
- The lowest bit of the first netmask byte that is not 0xff is never looked at
  (`PrefixLength.AcceptedIsNearMask`, `PrefixLength.LastBitUnseen`).
- A failed signal whose revert cannot be written leaves memory and disk apart
  (`Rewrite.KillAgreesIff`, `Rewrite.KillStrands`), a toggle does so whenever its write
  fails (`Rewrite.ToggleAgreesIff`, `Rewrite.ToggleStrands`), and a container without arguments or with an empty bundle
  path can never have its state file rewritten (`Rewrite.NoArgsNoRewrite`,
  `Rewrite.NoBundleNoRewrite`).
- A mount whose source is missing is skipped but not marked, so that unmounting stops at it
  (`MountTree.UndoSucceedsIff`, `MountTree.MissingSourceLeaves`), and files made as mount
  points can stay behind (`MountTree.FilesRestoredIff`, `MountTree.FileLeftBehind`).

## Model

| member | source | states |
|---|---|---|
| BigEndian.SetBigEndian32 | shim/utils.c:106-112 | stores the four bytes of a 32-bit value, most significant first, and leaves the rest of the buffer alone |
| BigEndian.SetBigEndian64 | shim/utils.c:134-138 | stores the eight bytes of a 64-bit value as two halves, high half first, and leaves the rest of the buffer alone |
| BigEndian.Put32 | shim/utils.c:106-125 | reading the four bytes stored for a value gives the value back |
| BigEndian.Put64 | shim/utils.c:134-154 | reading the eight bytes stored for a value gives the value back |
| BigEndian.PutOfGet32 | shim/utils.c:106-125 | every four-byte field is the encoding of the number read from it, so no two fields read alike |
| BigEndian.PutOfGet64 | shim/utils.c:134-154 | the same for eight bytes |
| BigEndian.LowByteLast32 | shim/utils.c:106-112 | the low byte is the last one and the bytes before it are those of the rest, which fixes the byte order |
| BigEndian.LowByteLast64 | shim/utils.c:134-138 | the same for eight bytes |
| Pipe.BytePipe.Read | shim/shim.c:371-377 | a read takes any positive number of the waiting bytes off the front, and nothing only at end of file: the chunking is left open |
| Pipe.BytePipe.Write | shim/shim.c:330 | a write puts any first part of the data behind what is there, and says whether it was all of it |
| IoFrame.HeaderOfEncode | shim/shim.h:41-48 | stream number, total length and payload can be read back from an encoded frame, whatever follows it |
| IoFrame.ReadIoMessage | shim/shim.c:348-414 | for every chunking: the message returned and the bytes left behind are those of a function of the bytes alone; every store is inside the 12-byte or the resized buffer, and the loop ends |
| IoFrame.NextMessageOfFrame | shim/shim.c:348-414 | on a frame of total length 12 to 10240 the reader takes exactly that frame off the front and returns it unchanged |
| IoFrame.MessageIff | shim/shim.c:348-414 | for any bytes at all: a message with a payload is handed out exactly when they start with a frame of total length 12 to 10240, and it is that frame |
| IoFrame.DecodeOfEncodeAll | shim/shim.c:348-414 | iterating the reader inverts concatenation of frames and leaves a cut-off last frame unread |
| IoFrame.EncodeAllInjective | shim/shim.h:41-48 | two frame sequences with the same bytes are the same sequence |
| IoFrame.HandleStdin | shim/shim.c:303-336 | one read of stdin becomes one well-sized frame with the shim's own number, and end of file the empty frame; the frame is written once, so that a first part of it reaches the proxy, all of it exactly when the write was whole; a failed read does nothing |
| Shim.RunBeforeExit | shim/shim.c:422-481 | over every frame sequence without an exit frame: stdout and stderr are exactly the concatenated payloads of the shim's two streams, and it is draining exactly when an own empty frame has been seen |
| Shim.RunAtExit | shim/shim.c:444-475 | the shim stops at the first own one-byte frame behind the first own empty frame, with that byte as status; earlier payloads are written in full and nothing is written later |
| Shim.OneExit | shim/shim.c:444-475 | a frame sequence has at most one exit frame |
| Shim.ExitsIff | shim/shim.c:444-475 | the shim exits on a sequence exactly when it holds an exit frame |
| Shim.AbsorbOfFrame | shim/shim.c:422-481 | with a whole frame next on the channel, one pass of the loop does to the shim what that frame does |
| Shim.AbsorbElse | shim/shim.c:422-481 | any other bytes leave the shim as it is |
| Shim.Process.WriteAll | shim/shim.c:468-475 | repeated partial writes put a first part of the payload on the right descriptor, and all of it unless a write fails |
| Shim.Process.HandleProxyOutput | shim/shim.c:422-481 | takes exactly one message off the channel and acts on it; a failed write loses only a tail of that payload; end of file is a failure |
| Vm.AllocateKeepsSound | proxy/vm.go:243-266 | handing out numbers keeps the routing table sound (every key in its session's range, ranges below the counter and routed whole) and changes no existing route |
| Vm.RangesDisjoint | proxy/vm.go:243-266 | two sessions of a sound table never share a number |
| Vm.AllocateSoundIff | proxy/proxy.go:205-208 | for every count: the table stays sound if and only if the count is not negative and does not run past 2^64, or takes the counter below zero, or takes it back to where no routed range ends above it |
| Vm.AllocateAccountedIff | proxy/vm.go:243-266 | for every count: all numbers ever handed out stay below the counter, so that none is handed out again, exactly under the same condition on the numbers handed out |
| Vm.NegativeCountReissues | proxy/proxy.go:205-208 | a count of -2, reported as an error but not stopped, gives numbers 1 and 2 to a second session |
| Vm.RemoveExactIff | proxy/vm.go:273-286 | removal from a number takes out exactly that session's routes, and keeps the table sound, if and only if the number is the session's base |
| Vm.RemovedAre | proxy/vm.go:273-286 | removal by any number takes out exactly the routes from that number on, as many as the session there has streams, whoever they belong to |
| Vm.CloseIoOfSecondNumber | proxy/vm.go:273-286 | closing the first of two sessions by its second number takes out a route of the second session and leaves one of its own |
| Vm.VirtualMachine.AllocateIo | proxy/vm.go:243-266 | in any state and for any count the new table is that of Allocate; from a valid state a count that is not negative and does not wrap issues only numbers never issued before, even to a session long gone, and the state stays valid exactly under the condition above |
| Vm.VirtualMachine.FindSession | proxy/vm.go:124-129 | the session routed under a number, or none |
| Vm.VirtualMachine.CloseIo | proxy/vm.go:273-286 | the routes counted from the given number go and that session is closed once; the invariant is lost exactly when the number is not the session's base |
| Vm.VirtualMachine.Close | proxy/vm.go:288-308 | for every iteration order of the map each session with a route is closed exactly once and the table ends empty |
| Vm.AllocateIoHandler | proxy/proxy.go:195-240 | in any state: the response is an error for a count outside 1 to 2, yet numbers are allocated and returned all the same; only a missing VM or a socket failure stops that |
| Vm.ShimSeqNoIff | src/proxy.c:957 | after narrowing to int and parsing, the shim listens on the allocated number exactly when it is below 2^31 or in the top 2^31 numbers but for the last one |
| Vm.ShimSeqNoLost | src/proxy.c:957 | 2^31 is the first number that does not come through |
| Multiplexer.RunKeeps | proxy/vm.go:134-162 | every state of every interleaving of allocation, routing, delivery, shim reads, stdin, CloseIo and shutdown satisfies the invariant: table, FIFO bytes, buffers and shim states all follow from the VM's output |
| Multiplexer.LogIs | proxy/vm.go:134-162 | over every run the log holds exactly the frames the VM sent, in order, and there are as many sessions as allocations |
| Multiplexer.SessionIs | proxy/vm.go:243-266 | over every run session i has the count and the client of the i-th allocation, and the numbers behind those of the earlier ones |
| Multiplexer.WindowIs | proxy/vm.go:124-162 | over every run a session is owed exactly the frames sent between its allocation and its closing, as the steps tell them |
| Multiplexer.Delivery | proxy/vm.go:134-162 | over every run and for every session, in terms of the steps alone: stdout is the in-order concatenation of the payloads tagged with its first number up to some point of what the VM sent between its allocation and its closing, stderr that of its second number; drained and not exited means all of it; exited means up to the first own one-byte frame behind the first own empty one, whose byte is the status; not exited means that there is no such frame up to there |
| Multiplexer.EndDelivered | shim/shim.c:444-475 | the same for one endpoint that satisfies the invariant, exit frame and all |
| Multiplexer.RoutedIff | proxy/vm.go:124-129 | a frame is routed to a session exactly when the session is still in the table and owns the number |
| Multiplexer.NumbersNeverShared | proxy/vm.go:243-266 | in every run no number belongs to two sessions, gone or not, so no byte counts for two |
| Multiplexer.ForwardEnd | proxy/vm.go:215-241 | the session-number check never fails for a frame of the session's own shim, and forwarding keeps the order |
| Multiplexer.StdinInOrder | proxy/vm.go:215-241 | in every run what reached the VM from a session is what its shim read from stdin, read by read, in order and with its own number, one frame for each that the proxy passed on |
| Multiplexer.ShutdownOnlyAfterReadError | proxy/vm.go:134-162 | the VM object can be shut down exactly after its own channel failed; a client write error stops the router without that |
| Progress.OpenIff | proxy/vm.go:215-241 | in every run a session's socket is open exactly until the session is closed: the number check never closes it |
| Progress.CatchesUp | shim/shim.c:348-481 | from every state of every run, unless a frame of the session was lost in the router, deliveries and reads alone bring the shim to where all frames sent to the session take it |
| Progress.NextFrameArrives | proxy/vm.go:134-162 | whenever the router is idle, any frame the VM sends to an open session can be brought through to its shim |
| Progress.SessionCanStart | proxy/vm.go:243-266 | in every run another session can be allocated until the numbers run out, and is owed nothing yet |
| Progress.StdinCatchesUp | proxy/vm.go:215-241 | in every run all that an open session's shim has read can be passed on to the VM |
| Progress.CanTypeAndClose | shim/shim.c:303-336 | in every run a live shim can read more from stdin, and an open session can be closed |
| Teardown.RunKeeps | proxy/vm.go:215-318 | the invariant over every interleaving of router, session readers, allocation and Close at the granularity of the lock |
| Teardown.ClosedAtMostOnce | proxy/vm.go:316-318 | in every run vmLost is closed at most once, Close runs at most once and only after that, and no session is closed twice |
| Teardown.EverySessionClosedOnce | proxy/vm.go:288-308 | when Close has let go of the lock, each session that had a route when it took the lock was closed exactly once, no other was, and the readers it found running are over |
| Teardown.ClosedIff | proxy/vm.go:288-308 | over every run, in terms of the steps alone: when Close has let go of the lock, exactly the sessions allocated before it took the lock have been closed, each once, and every reader started before then is over |
| Teardown.TableEmptyAtUnlock | proxy/vm.go:288-308 | in every run: when the loop over the keys that were there at the lock has visited each of them, no route is left, because nobody adds one while the lock is held |
| Teardown.MeasureShrinks | proxy/vm.go:268-308 | while Close is under way, each step that helps it shrinks a measure and no other step raises it |
| Teardown.NeverStuck | proxy/vm.go:268-308 | Close always has a helping step: the reader it waits for never needs the lock that it holds |
| Teardown.CloseFinishes | proxy/vm.go:268-308 | from every reachable state in which Close has the lock, at most Measure steps finish it |
| Teardown.SignalHistory | proxy/vm.go:134-162 | over every run: vmLost was closed exactly when a read from the VM failed, and the router ended without that exactly when a write to a client failed |
| Teardown.TeardownIff | proxy/vm.go:310-318 | over every run: Close has run or can run exactly when a read from the VM failed |
| Teardown.TeardownCompletes | proxy/vm.go:288-318 | after a failed read from the VM, whatever else happened, Close can get to its end |
| Teardown.NoTeardownAfterWriteError | proxy/vm.go:134-162 | in every run with a failed write to a client, vmLost is never closed and Close never runs, whatever comes before and after |
| Teardown.WriteErrorRun | proxy/vm.go:153-158 | such a run: one session, one frame, and its client is gone; the route stays |
| Registry.RunKeeps | proxy/proxy.go:81-192 | every interleaving of hello, attach and bye at the granularity of the lock keeps the invariant: names lead to VMs made for them, no VM is connected by two clients, none is monitored twice |
| Registry.RegistrySafe | proxy/proxy.go:125-131 | in every run a VM has at most one monitor, so Close is called at most once for it; a name leads to a VM of that name, and only VMs that were made are attached to |
| Registry.NameLostIff | proxy/proxy.go:115-121 | a name leaves the registry exactly when a handler that carries it deletes it, and a name that stays keeps its VM |
| Registry.LeadsIff | proxy/proxy.go:81-192 | over every run from any state: a name leads to a VM exactly when it did at the start and no step deleted that name, so that a VM that lost its name never gets it back |
| Registry.StaysRegisteredIff | proxy/proxy.go:97-121 | the VM of an accepted hello is registered for exactly as long as nobody deletes its name |
| Registry.AttachReaches | proxy/proxy.go:135-157 | an attach gives the client the VM that its name led to at that moment, and it keeps it whatever others do; an unknown name changes nothing |
| Registry.HelloReaches | proxy/proxy.go:97-131 | whatever others do meanwhile, an accepted hello can connect, and the client is then attached to the VM made for it, which is monitored |
| Registry.MonitoredIff | proxy/proxy.go:125-131 | over every run exactly the VMs whose Connect worked are monitored |
| Registry.FailedHelloDeletes | proxy/proxy.go:115-121 | whatever others do meanwhile, a hello whose Connect fails deletes the name it came with and attaches nobody |
| Registry.ByeDetaches | proxy/proxy.go:160-192 | whatever others do meanwhile, a bye deletes the name it came with and detaches its client until that does something itself |
| Registry.TakesAnotherIff | proxy/proxy.go:115-121 | over every run from an accepted hello to its failing Connect: the failure takes away another client's VM exactly when the name was deleted since that hello and is registered again |
| Registry.FailedHelloTakesAnother | proxy/proxy.go:115-121 | a run in which that happens: a connected VM is left monitored but unknown |
| Registry.Proxy.HelloHandler | proxy/proxy.go:81-132 | the handler is its two steps without another handler in between: a name is taken once, a Connect that fails leaves the registry as it was, and a malformed hello is reported but not refused |
| Registry.Proxy.AttachHandler | proxy/proxy.go:135-157 | the handler is the Attach step, and fails exactly for an unknown name |
| Registry.Proxy.ByeHandler | proxy/proxy.go:160-192 | the handler is its two steps: a known name is removed and the client detached; the VM stays monitored |
| Qmp.QmpMsgRecv | src/network.c:104-225 | for every chunking the messages are the CRLF split of the NUL-free bytes read; a stream of exactly the expected messages is received whole; the two failures are described exactly |
| Qmp.TakeMessages | src/network.c:152-196 | the inner loop moves the complete messages off the front of the buffer and leaves the rest |
| Qmp.JoinOfSplit | src/network.c:152-196 | the messages, each with its separator, and the leftover are the input |
| Qmp.SplitClean | src/network.c:152-196 | no message holds a separator, and none is left behind |
| Qmp.SplitUnique | src/network.c:152-196 | any way of writing the input as clean messages and a clean leftover is the one found |
| Qmp.SplitAppend | src/network.c:128-209 | cutting the input anywhere, even inside a separator, changes nothing |
| Qmp.AllMessagesMeansAllBytes | src/network.c:198-209 | when the whole ends with a separator, having all the messages means having read all the bytes |
| Rpc.FrameParts | proxy/api/protocol.go:94-119 | a frame is the length modulo 2^32 in four bytes, four zero bytes and the data unchanged |
| Rpc.ReadBody | proxy/api/protocol.go:72-82 | the loop collects the first bytes of the pieces, exactly as many as asked for, or all of them at an early end |
| Rpc.ReadMessage | proxy/api/protocol.go:57-90 | the outcome and the pieces left over, for any pieces, including the failure when the first read is shorter than a header |
| Rpc.ReadAllIff | proxy/api/protocol.go:57-119 | for every message sequence and every cutting of its bytes, reading inverts writing if and only if no piece ends inside a header |
| Rpc.SplitHeaderFails | proxy/api/protocol.go:57-90 | an empty message whose header arrives in two pieces is not read |
| Rpc.ProxyMsgWriteIff | src/proxy.c:386-419 | the C writer, which counts UTF-8 characters, writes the expected frame if and only if every character is one byte |
| Rpc.ProxyMsgWriteIs | src/proxy.c:386-419 | what it writes is always a frame, of the text's first bytes, as many as there are characters |
| Rpc.TwoByteCharacter | src/proxy.c:386-419 | a text of one two-byte character goes out with length 1 and without its second byte |
| Rpc.GetProxyCtlMsg | shim/shim.c:168-189 | the shim's writer counts bytes and writes that frame |
| Rpc.HandleRequest | proxy/protocol.go:79-108 | a known request gets the results, the file and the error text of its handler, success meaning no error; any other gets an error without results or file and leaves the state alone |
| Rpc.Replies | proxy/protocol.go:110-146 | one reply per request until the first that is not JSON |
| Rpc.RepliesAre | proxy/protocol.go:79-146 | over every sequence of messages: one reply for each request, and reply i carries the results, the error text and the file of its own handler, run on the state that the handlers of the earlier requests left |
| Rpc.Connection.Write | proxy/api/protocol.go:102-116 | a write sends a first part of the data, all of it exactly when it succeeds |
| Rpc.SendReply | proxy/protocol.go:131-144 | the byte that carries the file, if any, and then one response frame; a first part of that, and failure, if a write fails |
| Rpc.ServeOne | proxy/protocol.go:110-146 | one turn of the loop: a request read and answered, or the end with nothing sent, or the end with a proper first part of the answer sent |
| Rpc.Serve | proxy/protocol.go:110-146 | everything sent on a connection, as a function of the pieces that arrived, or a proper first part of it exactly when a write failed |
| Rpc.ServeAnswersInOrder | proxy/protocol.go:110-146 | for every request sequence and every cutting with whole headers, the client gets exactly its replies, in order |
| Rpc.RepliesDecodable | proxy/protocol.go:131-144 | a client that knows which replies carry a file, and takes the byte that comes with it before the frame, reads every response back as it was marshalled |
| Rpc.FramePrefixFree | proxy/api/protocol.go:94-119 | no frame is a first part of another |
| FdTable.Table.Dup | src/util.c:645-649 | dup takes the lowest free slot, or fails and changes nothing |
| FdTable.Table.DupOverStdio | src/util.c:619-685 | succeeds exactly when the descriptor is open and no dup fails, so three are enough; the file then sits in the lowest free slot above 2, the old slot is free, all others are unchanged; on failure nothing changed |
| FdTable.Table.Duplicate | src/util.c:637-650 | the temporaries and the last result of the duplication loop |
| FdTable.Table.CloseAll | src/util.c:669-683 | the temporaries are closed, on failure without the original |
| PrefixLength.Prefix | src/networking.c:328-362 | a mask of n ones then zeros gives n; a result above 0 means the buffer is accepted at that length; anything else gives 0 |
| PrefixLength.Scan | src/networking.c:328-362 | the byte loops accept at a length, or refuse every length |
| PrefixLength.ScanByte | src/networking.c:343-354 | the two loops over the first byte that is not 0xff |
| PrefixLength.AcceptsIff | src/networking.c:328-362 | the bit-by-bit meaning of acceptance and the byte-by-byte one agree |
| PrefixLength.AcceptsOnce | src/networking.c:328-362 | a buffer is accepted at one length at most |
| PrefixLength.MaskAccepted | src/networking.c:328-362 | every mask is accepted at its length |
| PrefixLength.AcceptedIsNearMask | src/networking.c:343-354 | what is accepted is a mask if and only if the lowest bit of the first byte other than 0xff, which is never looked at, is 0; clearing it gives a mask |
| PrefixLength.LastBitUnseen | src/networking.c:343-354 | the byte 0xc1 is accepted at length 2 and is a mask of no length |
| Decimal.StrtollOfInt | src/state.c:177-193 | a printed 64-bit number reads back as itself, whatever non-digit follows |
| Decimal.StrtollOfDigits | src/semver.c:83-139 | a run of digits reads as its value, clamped to 64 bits |
| Decimal.StrtollOfNumeral | src/state.c:177-193 | white space, at most one sign and digits read as that number, clamped to 64 bits, whatever follows |
| Decimal.StrtollFindsIff | src/state.c:177-193 | a number is found exactly in a text of that form; from any other 0 is read |
| Semver.StringIsNumeric | src/semver.c:44-60 | true exactly for texts of digits only |
| Semver.StrCmpIsLex | src/semver.c:125-127 | strcmp is dictionary order: the first difference decides, and a text comes behind its own beginnings |
| Semver.CompareFields | src/semver.c:83-139 | one pair of identifiers: as numbers when both are, by strcmp otherwise |
| Semver.CmpPreReleases | src/semver.c:83-139 | the walk over both lists of identifiers gives the first difference, or that of the lengths |
| Semver.SplitPatchVersion | src/semver.c:157-181 | NULs written in place over the first '-' and '+' leave a buffer whose C strings are the parts of the patch field |
| Semver.CompatibleIsCoarser | src/semver.c:268-316 | for any two strings: where the compatible comparison is not 0 the full one is the same |
| Semver.FieldsJoin | src/semver.c:94-95 | the fields of any text, joined by dots, are the text, and without a limit none holds a dot |
| Semver.CmpDefinedIff | src/semver.c:268-316 | for any two strings: the compatible comparison has an answer exactly when both have a dot, and the full one exactly when it finds different numbers before it needs a third field, or both have two dots |
| Semver.PrecedenceIsPreorder | src/semver.c:379-382 | item 11 of Semantic Versioning 2.0.0, written down independently, is a total preorder |
| Semver.CmpAgrees | src/semver.c:330-382 | on every version whose patch and pre-release numbers are below 2^31, whose major and minor numbers fit a long and whose other identifiers sort above 999999999, with any harmless build metadata, the comparison has the sign that item 11 prescribes, and the compatible one that of the major numbers |
| Semver.NumberPairIff | src/semver.c:119-124 | two numbers of any size compare rightly if and only if the low 32 bits of their difference, each cut off at the largest long, have the right sign |
| Semver.NumbersAgreeIff | src/semver.c:119-124 | all pre-release numbers below a bound compare rightly if and only if the bound is at most 2^31 |
| Semver.PatchesAgreeIff | src/semver.c:157-181 | the same for patch numbers |
| Semver.CoreNumbersAgreeIff | src/semver.c:330-382 | the same for major and minor numbers, with 2^63 |
| Semver.LargeNumberEqual | src/semver.c:119-124 | two versions whose pre-release numbers are 2^32 apart, such as 1.0.0-4294967296 and 1.0.0-0, compare equal |
| Semver.AboveNumbersIff | src/semver.c:83-139 | an identifier sorts above every number below 2^31 under strcmp if and only if it sorts above 999999999 |
| Semver.AboveNumericsIff | src/semver.c:83-139 | the identifiers that sort above all numbers of any size are exactly those with a letter behind any number of 9s |
| Semver.CmpIsPreorder | src/semver.c:330-382 | on those versions, build metadata included, the comparison is a total preorder on the strings |
| Semver.PrecedenceCycle | src/semver.c:83-139 | 9 is below 10, 10 below 1a and 1a below 9: outside that domain there is a cycle |
| Semver.MetadataIgnoredIff | src/semver.c:157-181 | appending +m to a version of three fields leaves every comparison as it was if and only if its first '-' precedes any '+', or there is no '-' in either |
| Semver.HyphenInMetadata | src/semver.c:157-181 | 1.0.0+a-b compares below 1.0.0 |
| Json.ParseAux | src/json.c:82-136 | the nodes appended in place for a value are those of the flattening, behind the ones already there, and no other node changes |
| Json.ParseMembers | src/json.c:97-112 | an object's members become one node each, in order |
| Json.ParseElems | src/json.c:121-128 | an array's elements are appended side by side |
| Json.ParseScalar | src/json.c:129-134 | a scalar, numbers with a fraction among them, becomes a text node, with an empty child inside an array |
| Json.ScalarKept | src/json.c:38-75 | a string keeps its text, a 64-bit integer reads back as itself, a truth value as its name, and a number with a fraction is cut off behind 63 characters |
| Json.WordsKept | src/json.c:82-136 | for every document: the nodes hold all its names and scalars, in its order, and one empty node for each object and each scalar in an array |
| Json.Parse | src/json.c:147-180 | the whole document below a node named after the file |
| Records.SeparatorsRecoverRecords | src/json.c:82-136 | for every array of objects, any record rules and any earlier state of the static record: the run over the flattened nodes ends with exactly the records and the verdict of the object-by-object mapping, and with nothing left in the making |
| Records.RunObject | src/json.c:97-112 | the nodes of one object, run through a handler: its separator saves what was being filled and its members fill the next record |
| Records.Direct | src/spec_handlers/mounts.c:188-214 | the object-by-object mapping is good exactly when no object is refused |
| Records.RunLeavesNothing | src/spec_handlers/mounts.c:148-185 | a record in the making never outlives an error or the final save |
| Records.Handler.SaveCurrent | src/spec_handlers/mounts.c:105-139 | a complete record is appended, an incomplete one is an error; either way the static variable is cleared |
| Records.Handler.HandleNode | src/spec_handlers/mounts.c:148-185 | a separator saves, a member with a value fills, and after an error nothing happens |
| Records.Handler.HandleSection | src/spec_handlers/mounts.c:188-214 | a whole section gives the object-by-object records and verdict, and leaves nothing for the next |
| SpecHandlers.MountGetFlagValue | src/spec_handlers/mounts.c:66-77 | the flag of a known option name, none otherwise |
| SpecHandlers.HandleOptions | src/spec_handlers/mounts.c:167-183 | flags are or-ed, and the other options come out joined by commas in order |
| SpecHandlers.FlagIff | src/spec_handlers/mounts.c:27-77 | a flag is set exactly when one of the options is a name that asks for it |
| SpecHandlers.OtherIff | src/spec_handlers/mounts.c:27-77 | an option is kept as text exactly when it is no such name |
| SpecHandlers.MountOfObject | src/spec_handlers/mounts.c:105-185 | an object gives the mount of its named members, and is refused exactly when it has values but no destination, type or source |
| SpecHandlers.MountList | src/spec_handlers/mounts.c:105-214 | for every array of objects: the section is refused exactly when an object with a value lacks destination, type or source, and otherwise the list is the mount of each object with a value, in order |
| SpecHandlers.MountsHandleSection | src/spec_handlers/mounts.c:188-214 | from an empty list the verdict and the list are the object-by-object ones; a list that is there is kept |
| SpecHandlers.NodeToStrv | src/util.c:446-461 | the vector of the children's texts, terminated, which ends for its readers at the first child without text |
| SpecHandlers.TextsOfStrings | src/util.c:446-461 | an array of JSON strings gives exactly those strings back, and an empty one no nodes at all |
| SpecHandlers.HookOfObject | src/spec_handlers/hooks.c:31-91 | an object gives the hook of its named members, and is refused exactly when it has values but no path |
| SpecHandlers.HandleHooksSection | src/spec_handlers/hooks.c:94-117 | one member of the hooks object, run into the list of its name |
| SpecHandlers.HooksHandleSection | src/spec_handlers/hooks.c:120-137 | all members in turn, with one shared error flag and nothing left in the making |
| SpecHandlers.HooksRecovered | src/spec_handlers/hooks.c:94-137 | the three lists are the object-by-object ones, and the section is refused exactly when one of the three arrays has a bad object |
| SpecHandlers.NsOfObject | src/spec_handlers/linux.c:45-92 | an object gives the namespace of its type and path, and is refused exactly when its type names none |
| SpecHandlers.NsNames | src/namespace.c:38-115 | each namespace type has one name, and only those seven are names |
| SpecHandlers.LinuxHandleSection | src/spec_handlers/linux.c:95-136 | the run over the section's nodes followed by the final save, with nothing left in the making |
| SpecHandlers.NamespacesRecovered | src/spec_handlers/linux.c:95-136 | the namespaces are those of the namespaces array, object by object, and there are none without it |
| StateFile.StatusToStr | src/state.c:971-982 | the name of a status, none for the invalid one only |
| StateFile.StrToStatus | src/state.c:1013-1024 | the status of a name; a valid result has that name |
| StateFile.StatusRoundTrip | src/state.c:971-1024 | every valid status reads back from its name |
| StateFile.Find | src/state.c:527-534 | the first handler of a name, or past the table |
| StateFile.Reader.Read | src/state.c:603-660 | the state and the verdict are a function of the nodes alone, whatever an earlier read left in the static counters |
| StateReading.ReadStateIff | src/state.c:69-100 | any file is accepted exactly when it has a text for each of the seven single values, a number for the pid, six known values for the vm and two for the proxy |
| StateReading.MissingRefused | src/state.c:643-653 | nodes in which one of the ten mandatory names is missing are refused |
| StateReading.MemberMissingRefused | src/state.c:643-653 | so is any JSON object without one of these members |
| StateReading.SectionIs | src/state.c:519-542 | what a section fills in, and its counter, come from the nodes below its own name alone, whatever the other sections are |
| StateReading.SingleValuesAre | src/state.c:141-250 | of any accepted file, version, id, paths and creation time are the last texts below their names |
| StateReading.ConvertedValuesAre | src/state.c:169-240 | of any accepted file, the pid is the number that the last text below its name starts with, and the status the one of that name |
| StateReading.VmFieldIs | src/state.c:316-368 | of any accepted file, each vm field is the last value of its name, cut to its buffer |
| StateReading.ProxyFieldIs | src/state.c:377-409 | of any accepted file, each socket is the last value of its name |
| StateReading.ConsoleFieldIs | src/state.c:293-307 | of any accepted file, the console is the last value of path |
| StateReading.PodFieldIs | src/state.c:418-455 | of any accepted file, there is a pod exactly when the pod section has a value, and its fields are the last values of their names |
| StateReading.AnnotationsFieldIs | src/state.c:464-487 | of any accepted file, the annotations are all pairs of that section, last one first |
| StateReading.MountsFieldIs | src/state.c:261-284 | of any accepted file, the mounts come from the pairs of that section alone |
| StateReading.MountsAre | src/state.c:261-284 | each destination starts a mount, and the last directory named behind it is the one created for it |
| StateReading.NoMounts | src/state.c:261-284 | before the first destination there is no mount |
| StateReading.ProcessFieldIs | src/spec_handlers/process.c:28-107 | of any accepted file, the process is that of the last process section, each field by its name |
| StateReading.WrittenNeverBlank | src/state.c:750-772 | whatever is written, a reader finds an id, both socket paths, a working directory and a status in it, none of them blank |
| StateFile.Reader.Section | src/state.c:519-542 | one section: its handler over the children with the table's counter, the process, or nothing |
| StateFile.Reader.Children | src/state.c:527-534 | the handler run over all children, and its counter raised by those that count |
| StateFile.MountsToJson | src/mount.c:384-413 | one object for each mount that is not ignored, in order |
| StateFile.AnnotationsToJson | src/annotation.c:64-78 | the annotations set one after another in an object |
| StateFile.StateFileCreate | src/state.c:733-942 | succeeds exactly when the mandatory parts are there, and then builds that tree |
| StateFile.PidBack | src/state.c:177-193 | any 32-bit value survives being written unsigned, or signed, and read back |
| StateFile.VmRead | src/state.c:316-368 | all six vm fields read back, missing parameters as the empty string, and six subelements are counted |
| StateFile.ProxyRead | src/state.c:377-409 | the three sockets read back, absent ones as the empty string |
| StateFile.PodRead | src/state.c:418-455 | the pod flag and name read back, an absent name as the empty string |
| StateFile.MountsRead | src/state.c:261-284 | the mounts that were made read back in order, with the directories created for them |
| StateFile.ProcessRead | src/spec_handlers/process.c:28-107 | working directory, terminal, streams, arguments and environment read back; an empty vector reads as a missing one, and the user ids, which are not written, as 0 |
| StateFile.AnnotationsRead | src/state.c:464-487 | annotations read back last one first, null values dropped |
| StateFile.AnnotationReadIff | src/annotation.c:64-78 | a name is read back with a value exactly when that is the last value it was given |
| StateFile.ReadOfWritten | src/state.c:603-942 | every tree the writer builds is accepted by the reader and reads back field by field as stated, for every configuration within its buffers |
| Rewrite.Container.Save | src/state.c:733-942 | the file is replaced by the new tree, or stays as it was and the call fails |
| Rewrite.Container.Toggle | src/oci.c:958-988 | the outcome, the status in memory and the file; nothing else of the configuration changes |
| Rewrite.Container.Kill | src/oci.c:229-311 | the outcome, the status in memory and the file, for every pattern of failures; nothing else of the configuration changes |
| Rewrite.KillAgreesIff | src/oci.c:229-311 | starting in step, memory and disk agree after a kill if and only if it is not the case that the first write can be made, the signal fails and the revert cannot be written |
| Rewrite.KillStrands | src/oci.c:262-278 | a running container whose file says that it is stopping, after a failed signal and a failed revert |
| Rewrite.KillSucceedsIff | src/oci.c:229-311 | a kill reports success exactly when every step of it works: the writes, the signal, and for signals 9 and 19 the call to the agent; the status in memory is then stopped, and otherwise the old one, or stopping once the signal is out |
| Rewrite.KillSucceeds | src/oci.c:229-311 | a kill that reports success left the container stopped in memory and on disk |
| Rewrite.ToggleSucceedsIff | src/oci.c:958-988 | a toggle reports success exactly when there is nothing to do, or the VM does it and the new status is written; a failure leaves the file as it was |
| Rewrite.ToggleAgreesIff | src/oci.c:958-988 | starting in step, memory and disk agree after a toggle if and only if there is nothing to do, the VM refuses, or the new status can be written |
| Rewrite.ToggleStrands | src/oci.c:958-988 | a paused container whose file says that it runs, after a failed write |
| Rewrite.RunCommand | src/commands/kill.c:27-85 | a command reads the file, rebuilds a configuration and acts; the file and the verdict afterwards |
| Rewrite.CommandSucceedsIff | src/commands/kill.c:27-85 | a command on any written file reports success exactly when, besides what it needs from outside, there is a program to run and a runtime path; a toggle with nothing to do always does |
| Rewrite.RebuiltIs | src/oci.c:1470-1517 | the configuration rebuilt from a written file, field by field |
| Rewrite.RebuiltTwice | src/oci.c:1470-1517 | rebuilding from a rebuilt configuration's file changes nothing |
| Rewrite.RewritableIff | src/oci.c:1527-1565 | a rebuilt configuration can be written again exactly when the argument vector is not empty |
| Rewrite.HistoryFile | src/oci.c:171-217 | after any sequence of pause, resume and kill with any failures the file is the first one, or that of the last write that worked |
| Rewrite.HistoryReads | src/oci.c:171-217 | after any such sequence the file reads as the one first written, with the status of the last write that worked, and without annotations once rewritten |
| Rewrite.NoArgsNoRewrite | src/oci.c:1527-1565 | with an empty argument vector no command ever changes the file |
| Rewrite.NoBundleNoRewrite | src/oci.c:123-132 | with an empty bundle path no command ever changes the file |
| MountTree.FirstParentToCreate | src/mount.c:261-280 | cutting a copy of the path in place, slash by slash, and taking the last cut back yields the text of the topmost missing ancestor, or nothing if there is none to record |
| MountTree.TopMissing | src/mount.c:264-279 | an ancestor that is missing while its parent is there |
| MountTree.CutHolds | src/mount.c:265-276 | the text up to its last slash is that of the parent, and putting the slash back undoes the cut |
| MountTree.MkdirUndone | src/mount.c:284-290 | what making a directory adds is exactly what deleting its topmost missing ancestor takes away |
| MountTree.Tree.Ignore | src/mount.c:57-88 | a mount is marked and skipped exactly when its directory is one of the seven |
| MountTree.Tree.Perform | src/mount.c:134-206 | directories are made, a file is created for a regular source, and the mount point is in use, or the call fails at the first obstacle |
| MountTree.Tree.MountEntry | src/mount.c:235-298 | one turn of the loop: the tree and the entry afterwards |
| MountTree.Tree.HandleMounts | src/mount.c:216-301 | the tree and the list after the whole loop, up to the first failure |
| MountTree.MountSucceedsIff | src/mount.c:216-301 | mounting a list succeeds exactly when every entry fits among what is there and what the entries before it put up |
| MountTree.MountAllIs | src/mount.c:216-301 | a list that was mounted has put up exactly its directories, its files and its mounts |
| MountTree.IgnoredIff | src/mount.c:33-46 | a mount is left alone exactly when its path reads as one of the seven |
| MountTree.Tree.HandleUnmounts | src/mount.c:330-370 | everything is unmounted first, and only then are the remembered directories deleted |
| MountTree.DirsUndone | src/mount.c:339-367 | deleting what the entries remember leaves exactly the directories that were there before |
| MountTree.UndoSucceedsIff | src/mount.c:339-351 | unmounting gets through if and only if no source was missing and no mount is busy |
| MountTree.UndoStops | src/mount.c:339-351 | if unmounting stops half-way, nothing has been deleted |
| MountTree.UndoRestores | src/mount.c:216-370 | for every list of mounts that was mounted and unmounted: the directories are exactly the original ones, and the files are the original ones and those made as mount points in directories that were there before |
| MountTree.FilesRestoredIff | src/mount.c:168-179 | the files are the original ones exactly when each file needed as a mount point was there already or had no directory to be in |
| MountTree.FileLeftBehind | src/mount.c:168-179 | a file mounted in the container's root directory: unmounting succeeds and the empty file stays |
| MountTree.MissingSourceLeaves | src/mount.c:248-251 | a mount skipped for its missing source makes unmounting fail, and the directory of an earlier mount stays |

## Left out

- The text of JSON documents, its escapes and its encoding: the model starts from trees whose
  objects are ordered lists of members, and from the text a number with a fraction is printed as.
- The hyperstart control channel, `Connect`, console streaming, socket activation, profiling
  and logging.
- Launching the VM and the shim, running hooks, namespace setup, network interfaces, and the
  command line.
- Uniqueness of client ids, which the proxy reads before it increments the counter.
- The expansion of `hypervisor.args`.
- The C reader of proxy messages (`cc_proxy_msg_read`) and the descriptor it can receive.
- Frames longer than 10240 bytes or shorter than their header: the reader's and the shim's
  treatment of them is modelled, but the delivery theorems are about well-sized ones.
- User and group ids, the annotations and the pod's workload directory after a rewrite: the
  code does not carry them over. For the ids and the annotations that loss is part of
  `StateFile.ProcessRead` and `Rewrite.HistoryReads`.
- A number in the state file or in a hook given as an object, where the code would follow a
  null pointer, reads as 0.
- Path names in `MountTree` are canonical, that is without empty components or a final slash,
  and destinations fit their buffer. The tree is the one underneath the mounts, so the
  statements are about mounts that are not nested in one another. Dry-run mode, the contents
  of files and failures of the final deletion, which the code only logs, are not modelled.
- StateFile.ReadOfWritten: an empty argument or environment vector reads back as a missing one,
  which is what the code does.
- Multiplexer.Delivery: counts of 1 or 2 streams and numbers below 2^31 only; beyond that the
  number does not survive its way to the shim.
- Teardown.EverySessionClosedOnce: about sessions that were in the table when Close took the
  lock; one that is allocated later is not closed by the code either.
- Semver.CmpAgrees: numbers and identifiers within the bounds described above; outside them
  the code differs from item 11 on some pair of versions.
- In `dup_over_stdio`, a close that fails.
- Memory management in the C code.
