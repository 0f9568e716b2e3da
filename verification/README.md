# A verified model of qn's byte-level, protocol and graph code

qn is a JavaScript runtime with a Node-compatible layer. This project models the parts of it where a fast,
incremental or concurrent form has to agree with something simple, and proves that it does. Loops, buffers and
objects with changing fields are methods and classes, each proved against a specification function; the laws are
lemmas about those functions. Protocols are state machines whose steps are the statements of the source, and their
properties hold of every state of every run.

| file | part of qn |
|---|---|
| `Path.dfy`, `PathLaws.dfy` | POSIX path algebra, `node/node/path.js` |
| `GitVarint.dfy`, `GitDelta.dfy`, `GitDeltaLaws.dfy`, `GitPack.dfy`, `GitPackLaws.dfy`, `GitPktLine.dfy`, `GitPktLaws.dfy` | pack reader, index builder and smart-HTTP framing, `node/qn/git.js` |
| `GzipHeader.dfy`, `Gzip.dfy`, `GzipLaws.dfy` | gzip framing, one-shot and streaming, `node/node/zlib.js` |
| `ZlibRun.dfy` | the loop around the compression engine, `libuv/qn-zlib.c` |
| `MessagePipe.dfy`, `SandboxedWorker.dfy` | message pipes of a sandboxed worker, `sandboxed-worker/sandboxed-worker.c` |
| `HandleList.dfy`, `StreamLife.dfy`, `PtyLife.dfy` | lifetimes of handle structs, `libuv/qn-uv-stream.c`, `libuv/qn-uv-pty.c` |
| `WorkerReadBuf.dfy` | message reassembly, `libuv/qn-worker.c` |
| `Archive.dfy`, `ArchiveLaws.dfy` | the self-extracting archive, `qnc/pack.c`, `qnc/wrapper.c` |
| `TsconfigPaths.dfy`, `Bundle.dfy`, `BundleLaws.dfy`, `ModuleNames.dfy`, `ModuleNamesLaws.dfy` | inherited configuration, bundler worklist, module names |
| `Utf8Decoder.dfy` | incremental UTF-8 splitter, `node/node/child_process/ChildProcess.js` |
| `Wrappers.dfy`, `Text.dfy`, `Sequences.dfy`, `Bytes.dfy`, `Memory.dfy`, `JsInt.dfy` | shared: results, split and join, joined chunks, little-endian integers, copies, 32-bit bit operators |

A file `XLaws.dfy` says what the specification functions of `X.dfy` mean in terms of the bytes, characters and fields they
are given, without those functions: how a format is laid out, what a path segment does to a path, where an import leads.

Bytes are integers from 0 to 255. JavaScript's 32-bit bit operators are written out over unbounded integers
(`JsInt.dfy`), C's narrowing casts as remainders. What the code takes from outside is a parameter: the hash,
`inflate`, the CRC step, the compression engine, file contents, name resolution, `waitpid`, allocation failures.

Where the code does not do what one would expect of it, the exact condition is a lemma:

- a complete byte string is the encoding of the size it denotes exactly when its last group is not empty, so every size
  has further, longer encodings (`GitVarint.SizeShortest`, `GitVarint.SizeNotInjective`);
- a delta that copies from beyond its base is not refused but filled with zero bytes (`GitDelta.ApplyEncoded`);
- a packet survives framing exactly up to 65531 payload bytes (`GitPktLine.PacketRoundTrip`);
- the streaming gunzip fails on account of its chunks exactly when a boundary at or past 1024 bytes lies inside the
  header (`Gzip.StreamGunzips`, `Gzip.LateMeans`, `Gzip.LateRefused`);
- without such a boundary it agrees with the one-shot code exactly when the compressed stream ends before the trailer,
  which it does not test; a header with eight zero bytes behind it is one file they disagree on
  (`Gzip.StreamAgreesExactly`, `Gzip.HollowFile`);
- a gzip stream ended without a chunk puts its header behind its body (`Gzip.StreamGzips`, `Gzip.EmptyStreamIsNotGzip`);
- the compression loop hangs when the free space is a positive multiple of 2^32 (`ZlibRun.Run`, `ZlibRun.HangsForever`, `ZlibRun.LargeOutputHangs`);
- a sandboxed worker that has set up its port never ends, so its pipes are never destroyed (`SandboxedWorker.PortForever`);
- a stream struct whose JavaScript object cannot be made is never freed (`StreamLife.UnwrappedLeaks`);
- a frame is sent whole exactly when it is shorter than 2^32 bytes (`WorkerReadBuf.SentWhole`);
- the archive reader stops at the first name of 1024 bytes or more (`Archive.ExtractUndoesPack`);
- the C and JavaScript name normalisers differ exactly where the C one cannot take a "../" (`ModuleNames.AgreeExactly`);
- stripping the working directory commutes with normalising exactly when the import does not leave the base, or passes
  the root (`ModuleNames.JsStripsExactly`, `ModuleNames.CStripsExactly`).

`dafny verify dfyconfig.toml` checks the whole project.

## Model

| member | source | states |
|---|---|---|
| Path.Normalize | node/node/path.js:16-54 | the character loop gives the canonical segments of a walk over the path, with its leading and trailing slash |
| Path.NormalizeNoTrailing | node/node/path.js:140-147 | the same without the trailing slash, the root kept |
| Path.Resolve | node/node/path.js:99-133 | reading the arguments from the right up to an absolute one and normalising |
| Path.NormalizeIdempotent | node/node/path.js:16-54 | normalising twice changes nothing, for every path |
| PathLaws.DotVanishes | node/node/path.js:28-31 | a segment "" or "." between two texts can be left out, in absolute and relative paths |
| PathLaws.NameVanishes | node/node/path.js:32-40 | a name with ".." behind it can be left out anywhere inside a path |
| PathLaws.FrontVanishes | node/node/path.js:28-40 | and so can a leading "./" or "name/../" of a relative path |
| PathLaws.EndVanishes | node/node/path.js:28-54 | and "/." or "/name/.." at the end, which then has no trailing slash |
| PathLaws.RootHasNoParent | node/node/path.js:28-37 | directly below the root "", "." and ".." can be left out |
| PathLaws.CanonicalStays | node/node/path.js:16-54 | names, behind ".." segments if the path is relative, are left exactly as they are, with leading and trailing slash |
| PathLaws.NothingLeft | node/node/path.js:43-54 | what paths without any segment become |
| Path.ResolveVisits | node/node/path.js:99-133 | resolving a list is visiting its paths one after the other from the working directory, as `cd` would |
| PathLaws.LastArgument | node/node/path.js:99-133 | an absolute last argument stands alone, an empty one does nothing, a relative one is normalised behind what the others resolve to |
| PathLaws.ResolveDot | node/node/path.js:99-133 | a leading "./" makes no difference to what is resolved |
| Path.ChosenRoute | node/node/path.js:412-451 | whichever boundary case the scan ends in, the text returned is that route joined by slashes |
| Path.Relative | node/node/path.js:392-452 | for all path strings and absolute working directories the result is the route between the two resolved paths |
| Path.RouteArrives | node/node/path.js:392-452 | walking the route from the source's segments ends at the target's segments |
| Path.RelativeInverts | node/node/path.js:392-452 | resolving `from` and then `relative(from, to)` is resolving `to` |
| GitVarint.ReadPackObjectHeader | node/qn/git.js:170-182 | the loop over continuation bytes returns kind, size and header length as the 32-bit operators give them |
| GitVarint.HeaderRoundTrip | node/qn/git.js:170-182 | reading an encoded kind and size below 2^31, with anything behind, gives both back and the encoding's length |
| GitVarint.ReadVarSize | node/qn/git.js:214-224 | the size loop of a delta header |
| GitVarint.VarSizeRoundTrip | node/qn/git.js:214-224 | reading an encoded size gives it back |
| GitVarint.DecodesSize | node/qn/git.js:214-224 | every complete byte string with a value below 2^31 is read as that value |
| GitVarint.SizeShortest | node/qn/git.js:214-224 | a complete string is the encoding of the size it denotes if and only if its last, most significant group is not an empty one |
| GitVarint.ShortestAreUnique | node/qn/git.js:214-224 | two such strings denote the same size only if they are the same |
| GitVarint.SizeNotInjective | node/qn/git.js:214-224 | every size is also read from a longer string |
| GitVarint.ReadOfsDeltaOffset | node/qn/git.js:185-195 | the offset loop with its plus one per continuation byte |
| GitVarint.OffsetBijection | node/qn/git.js:185-195 | complete byte strings and naturals correspond one to one |
| GitVarint.OffsetRoundTrip | node/qn/git.js:185-195 | reading an encoded offset below 2^31, with anything behind, gives it back and its length |
| GitVarint.DecodesComplete | node/qn/git.js:185-195 | every complete byte string with a value below 2^31 is read as that value |
| GitPackLaws.ShortHeaders | node/qn/git.js:170-182 | headers of one, two and three bytes: the kind and the size as a sum of their bits |
| GitPackLaws.ShortNumbers | node/qn/git.js:185-224 | delta sizes and offset distances of one and two bytes as sums |
| GitDelta.CopyInto | node/node/buffer.js:246-254 | what a clamped copy leaves in the target, and when it throws |
| GitDelta.ApplyOps | node/qn/git.js:226-253 | the instruction loop over the in-place output buffer performs the decoded instructions in order |
| GitDelta.ApplyDelta | node/qn/git.js:212-257 | sizes checked, instructions performed, output size checked, with each error in its place |
| GitDelta.OpsAll | node/qn/git.js:226-253 | the bytes of any list of instructions decode to that list, consuming them exactly |
| GitDelta.RunAll | node/qn/git.js:226-257 | performing decoded instructions appends their pieces one after the other |
| GitDelta.ApplyEncoded | node/qn/git.js:212-257 | applying the encoding of any instruction list returns the concatenation of the denoted pieces; size 0 means 0x10000 |
| GitDelta.PieceInRange | node/node/buffer.js:246-254 | a copy denotes that range of the base when it lies within the base; bytes beyond it come out as zeros |
| GitDeltaLaws.WrittenAs | node/qn/git.js:231-250 | the bytes of a copy, with the bits of its opcode, and of an insert |
| GitDeltaLaws.CopiedRange | node/qn/git.js:234-245 | a copy stands for the range of the base at the base-256 sum of its offset bytes, as long as that of its size bytes says, zero meaning 0x10000 |
| GitDeltaLaws.DeclaredSize | node/qn/git.js:225-256 | a delta is applied if and only if the declared size is that of what its instructions yield |
| GitDeltaLaws.OtherBaseRefused | node/qn/git.js:225-227 | a delta for a base of another size is refused for that |
| GitDeltaLaws.ReservedRefused | node/qn/git.js:251-253 | the opcode zero is refused wherever it stands |
| GitPackLaws.WholeEntry | node/qn/git.js:263-288 | a written header of kind 1 to 4 and its body are a whole commit, tree, blob or tag; kinds 0 and 5 are refused |
| GitPackLaws.OfsEntry | node/qn/git.js:268-273 | kind 6: the base is as far back from the entry's start as the written distance says, the delta is the inflated body behind it |
| GitPackLaws.RefEntry | node/qn/git.js:275-277 | kind 7: the base is named by exactly the twenty bytes behind the header |
| GitPackLaws.ReadsWhole | node/qn/git.js:283-287 | a written whole object is read if and only if it has the declared size |
| GitPackLaws.ReadsOfs | node/qn/git.js:268-274 | a written offset delta yields its instructions' pieces over the object at that distance, with its kind |
| GitPackLaws.ReadsRef | node/qn/git.js:275-282 | a written reference delta does so over the object the index names, and is unreadable without one |
| GitPackLaws.ReadsChain | node/qn/git.js:263-288 | reading the last of any chain of written offset deltas applies all their instructions in order |
| GitPackLaws.FramedExactly | node/qn/git.js:671-717 | the scan finds no fault if and only if magic, version, entries and checksum are in their places |
| GitPackLaws.WalkVisits | node/qn/git.js:677-710 | entries standing one behind the other are visited in this order |
| GitPack.ReadSound | node/qn/git.js:263-288 | whatever is read through a sound index is the meaning of the entry: its chain applied to the whole object it ends in |
| GitPack.StableReads | node/qn/git.js:263-288 | once a pass records nothing every chain that ends can be read through the index |
| GitPack.InMemoryIndex.RecordWholes | node/qn/git.js:671-717 | the first walk succeeds if and only if every entry can be read, and then has recorded every entry that is not a delta |
| GitPack.InMemoryIndex.TryDelta | node/qn/git.js:723-738 | one attempt at a delta keeps the index sound and records it exactly when it can be read |
| GitPack.InMemoryIndex.Pass | node/qn/git.js:719-742 | a pass that reports no progress has settled every delta |
| GitPack.InMemoryIndex.Scan | node/qn/git.js:671-744 | fails if and only if something is wrong with the pack, naming the first fault; otherwise ends after at most one pass more than there are deltas, with a sound and stable index |
| GitPack.StableIsComplete | node/qn/git.js:671-744 | a stable index holds an entry if and only if its chain ends in a whole object, under the hash of its applied content |
| GitPack.ChainsAreShort | node/qn/git.js:263-288 | no chain that ends is longer than the pack has entries |
| GitPack.IndexIsExact | node/qn/git.js:671-744 | for distinct contents and any order of entries: a hash maps to an entry if and only if the entry's content has that hash |
| GitPktLine.PktIter | node/qn/git.js:498-510 | the generator run to its end yields the packets of the buffer, or stops at the first bad length |
| GitPktLine.PacketRoundTrip | node/qn/git.js:488-510 | an encoded packet is read back as it was exactly when its payload has at most 65531 bytes |
| GitPktLine.StreamRoundTrip | node/qn/git.js:488-510 | any sequence of flushes, delimiters and payloads comes back in order with exact end offsets |
| GitPktLaws.FourDigits | node/qn/git.js:488-493 | a length is written as four lower-case hexadecimal digits |
| GitPktLaws.OddNumbers | node/qn/git.js:502 | what else `parseInt` takes for a length |
| GitPktLaws.BadField | node/qn/git.js:506 | lengths 2 and 3 and a packet cut off by the end of the buffer are errors |
| GitPktLaws.NoNumber | node/qn/git.js:503 | so is a length that is no number |
| GitPktLaws.StreamEnds | node/qn/git.js:498-510 | packets before a bad one are delivered; fewer than four bytes at the end are ignored |
| GitPktLine.DemuxSideband | node/qn/git.js:600-617 | the loop collects band-1 bytes and band-3 text up to the flush, with its errors |
| GitPktLine.BandsCollect | node/qn/git.js:600-617 | the collected bytes are those of the chunks, whatever is interleaved |
| GitPktLine.DemuxIndependent | node/qn/git.js:600-617 | the same pack bytes for every cut into packets, failing exactly when error text was sent |
| GitPktLaws.BandsEnd | node/qn/git.js:600-614 | demultiplexing fails at the first bad packet and at the first band other than 1, 2 and 3 |
| GzipHeader.ParseGzipHeader | node/node/zlib.js:199-226 | the parser with its offset loops, each truncation with its own error |
| GzipHeader.HeaderOfPrefix | node/node/zlib.js:199-226 | on a prefix it succeeds exactly when the whole header is in it, and with the same length |
| GzipHeader.ReadsEveryHeader | node/node/zlib.js:199-226 | it finds the length of every header of section 2.3 of RFC 1952, whatever follows |
| GzipLaws.HeaderBytes | node/node/zlib.js:203-225 | the fields announced by bits 2, 3, 4 and 1 of the flags, byte by byte |
| GzipLaws.NotGzip | node/node/zlib.js:200-202 | short files, other magic and other methods, each with its error |
| Gzip.OneShotRoundTrip | node/node/zlib.js:228-313 | decompressing what was compressed gives it back, the end of the stream tested |
| GzipLaws.FileBytes | node/node/zlib.js:246-253 | a file is the plain header, the engine's output, the CRC and the length modulo 2^32 |
| GzipLaws.TrailerDecides | node/node/zlib.js:300-304 | a trailer with another CRC, or else another length, is refused, by the one-shot code and by the stream |
| GzipLaws.NoTrailer | node/node/zlib.js:283 | fewer than eight bytes behind the header are refused by both |
| Gzip.ZlibStream.PreProcess | node/node/zlib.js:550-587 | header collection and the eight-byte window, with the state left behind |
| Gzip.ZlibStream.Transform | node/node/zlib.js:495-514 | one chunk: what is fed, pushed and counted |
| Gzip.ZlibStream.Flush | node/node/zlib.js:516-545 | the end of the stream: trailer written or checked |
| Gzip.ChunkKeeps | node/node/zlib.js:550-587 | after every chunk the state and the bytes released depend on the input so far, not on its chunks |
| Gzip.BodyAndTrailer | node/node/zlib.js:550-587 | the engine is fed input[h..n-8] and the last eight bytes are held back, under every chunking that is not late |
| Gzip.StreamGunzips | node/node/zlib.js:495-587 | for every chunking that is not late the framing and the trailer are checked as in the one-shot code, with the same data or error; a late boundary is an error |
| Gzip.StreamAgreesExactly | node/node/zlib.js:292-309 | the same result as the one-shot code if and only if the compressed stream ends; both fail or both succeed if and only if it ends or the trailer does not fit |
| Gzip.HollowFile | node/node/zlib.js:516-545 | a header and eight zero bytes: the stream gives an empty result, the one-shot code an error |
| Gzip.LateRefused | node/node/zlib.js:556-566 | a file with a header of more than 1024 bytes that the one-shot code reads and the stream, cut at 1024, refuses |
| Gzip.LateMeans | node/node/zlib.js:556-566 | a boundary is late if and only if it lies from 1024 up to the header's length |
| Gzip.StreamGzips | node/node/zlib.js:495-531 | given one chunk or more the stream pushes the one-shot file, and agrees with the one-shot code if and only if the engine reports its end; given none, the header comes behind the body |
| Gzip.EmptyStreamIsNotGzip | node/node/zlib.js:524-531 | the latter is not a gzip file |
| Gzip.StreamRoundTrip | node/node/zlib.js:495-587 | compressing in any chunks and decompressing in any other chunks gives the data back |
| Gzip.StreamPlain | node/node/zlib.js:495-523 | raw and zlib streams push what the engine makes of the whole input |
| ZlibRun.Run | libuv/qn-zlib.c:164-238 | for every engine that gets on while anything is left: below the limit its total output is collected and what it consumed reported, for every first capacity; above it the loop hangs; at it one or the other; the state returned, the output, the count and the reason for stopping are those of the calls made |
| ZlibRun.RunsInSuccession | libuv/qn-zlib.c:179-227 | two runs on one stream are one sequence of calls from the first state, their outputs joined |
| ZlibRun.PiecesMakeWhole | libuv/qn-zlib.c:179-227 | for an engine that only adds to its output on later input: what a run put out and what its final state makes of the rest and of more input are what the first state makes of it all |
| ZlibRun.CallGoes | libuv/qn-zlib.c:192-229 | a call with room ends the run or gets on, a call that does neither has nothing left, and no output is lost between calls |
| ZlibRun.SmallRuns | libuv/qn-zlib.c:174-181 | inputs below 2^31 and outputs below 2^32 bytes give the expected result |
| ZlibRun.CapacityIndependent | libuv/qn-zlib.c:174-188 | first capacity and doubling points make no difference |
| ZlibRun.ConsumedIsExact | libuv/qn-zlib.c:180-228 | the reported count is what the engine took exactly when the input length fits 32 bits |
| ZlibRun.HangsForever | libuv/qn-zlib.c:183-228 | where no room is offered in a buffer that is not full, the loop is in the same state after every number of rounds |
| ZlibRun.LargeOutputHangs | libuv/qn-zlib.c:174-191 | four megabytes of input that inflate to more than 2^32 bytes hang the loop |
| ZlibRun.HalfWordHangs | libuv/qn-zlib.c:174-191 | so does any output at all from 2^31 bytes of input |
| MessagePipe.Waker.Signal | sandboxed-worker/sandboxed-worker.c:110-120 | interrupted writes are repeated, one byte is added if the write succeeds |
| MessagePipe.Waker.Clear | sandboxed-worker/sandboxed-worker.c:122-131 | empties the pipe, and blocks if and only if it held a multiple of sixteen bytes |
| MessagePipe.OpKeeps | sandboxed-worker/sandboxed-worker.c:234-261 | every statement of posting and receiving keeps lock, wake-up bytes, queue and history in step |
| SandboxedWorker.StepKeeps | sandboxed-worker/sandboxed-worker.c:759-819 | every step of either thread keeps the counts, the pointers and both pipes in step |
| SandboxedWorker.WakeMatchesQueue | sandboxed-worker/sandboxed-worker.c:234-245 | with the mutex free there is one wake-up byte if messages are queued and none if not; never more than one |
| SandboxedWorker.ClearNeverBlocks | sandboxed-worker/sandboxed-worker.c:122-131 | clearing always finds exactly one byte |
| SandboxedWorker.CriticalSectionEnds | sandboxed-worker/sandboxed-worker.c:458-462 | the owner of a mutex can always go on and is at most four statements from unlocking |
| SandboxedWorker.NoSpuriousWake | sandboxed-worker/sandboxed-worker.c:354-391 | a worker woken by `select` finds a message |
| SandboxedWorker.MessagesConserved | sandboxed-worker/sandboxed-worker.c:863-868 | sent is delivered, then queued, then freed, in order, and freed only with the pipe |
| SandboxedWorker.CountsHolders | sandboxed-worker/sandboxed-worker.c:145-195 | `ref_count` is the number of pointers; destroyed once, when none is left |
| SandboxedWorker.NoUseAfterFree | sandboxed-worker/sandboxed-worker.c:294-309 | no pointer in use and no routine in progress is on a pipe that is gone |
| SandboxedWorker.NothingLeaked | sandboxed-worker/sandboxed-worker.c:759-819 | when the constructor failed, or the object is gone and the worker failed before it listed its port, each pipe made was destroyed once |
| SandboxedWorker.PortForever | sandboxed-worker/sandboxed-worker.c:354-410 | once its port is listed a worker keeps its pointers in every later state, so neither pipe goes |
| SandboxedWorker.LeakHappens | sandboxed-worker/sandboxed-worker.c:553-611 | there are such runs: one without failures up to the listing of the port |
| HandleList.List.Link | libuv/qn-uv-stream.c:18-21 | the node becomes the head, the others follow |
| HandleList.List.Unlink | libuv/qn-uv-stream.c:23-29 | exactly the node is taken out of the linked list, wherever it stands; the others stay in order |
| StreamLife.QNStream.CloseCb | libuv/qn-uv-stream.c:38-60 | keeps the struct in good order, gives up its own reference, and frees it exactly when JavaScript holds no other; a struct without an object stays unfreed |
| StreamLife.QNStream.Finalizer | libuv/qn-uv-stream.c:62-85 | frees the struct exactly when the close callback has run, and otherwise sees to it that it will |
| StreamLife.QNStream.CloseOp | libuv/qn-uv-stream.c:459-471 | asks for the close and keeps the self-reference, so that nothing is finalized before the callback |
| StreamLife.QNStream.Wrap | libuv/qn-uv-stream.c:127-138 | either the struct is in good order with one reference for JavaScript, or it is closing with no finalizer to come |
| StreamLife.RunKeeps | libuv/qn-uv-stream.c:30-85 | flags, references and frees stay in step in every run |
| StreamLife.FreedExactlyOnce | libuv/qn-uv-stream.c:31-36 | freed once, when close callback and finalizer have both run |
| StreamLife.NothingAfterFree | libuv/qn-uv-stream.c:38-60 | no callback and no reference can reach a freed struct |
| StreamLife.HeldUntilClosed | libuv/qn-uv-stream.c:459-471 | the object is not finalized while the struct holds it, which is until the close callback |
| StreamLife.FreedOrNeverClosed | libuv/qn-uv-stream.c:459-471 | a stream nothing will happen to any more was freed or was never closed |
| StreamLife.UnwrappedLeaks | libuv/qn-uv-stream.c:127-133 | without an object the struct is never freed, in any run |
| PtyLife.QNPty.PipeCloseCb | libuv/qn-uv-pty.c:78-85 | keeps the struct in good order and frees it exactly when the other handle is closed and JavaScript holds no reference |
| PtyLife.QNPty.SigchldCloseCb | libuv/qn-uv-pty.c:87-94 | the same with the handles exchanged |
| PtyLife.QNPty.TryReap | libuv/qn-uv-pty.c:108-137 | only the first reaping of a dead child does anything: it calls the handler, or gives up the self-reference; it never frees the struct |
| PtyLife.QNPty.ExitHandlerReturns | libuv/qn-uv-pty.c:128-137 | whatever the handler did, the struct is still there, gives up its reference and closes both handles |
| PtyLife.QNPty.Finalizer | libuv/qn-uv-pty.c:176-192 | frees the struct exactly when both close callbacks have run, and otherwise asks for those not asked for |
| PtyLife.QNPty.CloseOp | libuv/qn-uv-pty.c:416-424 | gives up the self-reference and asks both handles to close; the struct outlives the call |
| PtyLife.ReleaseLeavesStruct | libuv/qn-uv-pty.c:68-74 | wherever the code goes on using the struct after giving up its reference, that did not free it |
| PtyLife.RunKeeps | libuv/qn-uv-pty.c:61-137 | flags of both handles, references and frees stay in step in every run |
| PtyLife.FreedExactlyOnce | libuv/qn-uv-pty.c:61-66 | freed once, after the last of two close callbacks and the finalizer |
| PtyLife.NothingAfterFree | libuv/qn-uv-pty.c:107-137 | no callback, reference or returning exit handler reaches a freed struct |
| PtyLife.HeldUntilClosing | libuv/qn-uv-pty.c:68-74 | the object is not finalized while the struct holds it, which is until both handles are asked to close |
| PtyLife.FreedOrNeverClosed | libuv/qn-uv-pty.c:61-137 | a pty nothing will happen to any more was freed, or its child lives and it was never closed |
| WorkerReadBuf.SentWhole | libuv/qn-worker.c:174-183 | a frame is handed over whole exactly below 2^32 bytes |
| WorkerReadBuf.DecodeReads | libuv/qn-worker.c:56-61 | shifts and ors decode the little-endian number |
| WorkerReadBuf.ReadBuf.Append | libuv/qn-worker.c:83-93 | the bytes are appended within a capacity that doubles or fits |
| WorkerReadBuf.ReadBuf.Extract | libuv/qn-worker.c:97-122 | takes out the first complete frame of what is pending and leaves the rest, header already read or not |
| WorkerReadBuf.OnRead | libuv/qn-worker.c:225-231 | one read delivers every frame it completes and no more |
| WorkerReadBuf.CutsDoNotMatter | libuv/qn-worker.c:225-231 | the stream is the delivered frames followed by what is pending, however it was cut |
| WorkerReadBuf.DeliversWhatWasSent | libuv/qn-worker.c:298-303 | every list of messages arrives in order and completely, under every cut into reads |
| Archive.Pack | qnc/pack.c:96-136 | data, directory and footer are appended to the host |
| Archive.ReadData | qnc/wrapper.c:196-208 | the copying loop yields the bytes asked for, or as many as there are |
| Archive.Extract | qnc/wrapper.c:133-224 | the footer is checked and the directory walked, stopping at the first bad record |
| Archive.RecordReads | qnc/wrapper.c:173-189 | a written record is read back, unless its name is too long |
| ArchiveLaws.FileLayout | qnc/pack.c:96-136 | where the host, the data and the four fields of the footer lie, with the magic in bytes |
| ArchiveLaws.RecordLayout | qnc/pack.c:121-129 | a directory record in bytes |
| ArchiveLaws.RefusedExactly | qnc/wrapper.c:140-167 | nothing is extracted if and only if the file is too short, has no magic, no files or no room for its directory |
| ArchiveLaws.CutRecord | qnc/wrapper.c:178-183 | a record that is cut off ends the extraction |
| Archive.ExtractUndoesPack | qnc/wrapper.c:133-224 | names, contents and times other than zero come back in order for every host; all of them exactly when every name is below 1024 bytes, else those before the first longer one |
| Archive.RepackingReplaces | qnc/pack.c:80-136 | packing a packed file hides the first archive |
| TsconfigPaths.Loader.LoadConfig | node/qn/tsconfig-paths.js:148-191 | ends on every finite graph; on acyclic ones, with any sound cache, gives the uncached meaning and keeps the cache sound |
| TsconfigPaths.Loader.Load | node/qn/tsconfig-paths.js:148-191 | the outermost call |
| TsconfigPaths.LastBaseUrl | node/qn/tsconfig-paths.js:164-182 | the base URL is that of the last file in the line of inheritance that sets one, with the directory of that file |
| TsconfigPaths.LastPaths | node/qn/tsconfig-paths.js:167-185 | so are the paths, independently |
| TsconfigPaths.LineIs | node/qn/tsconfig-paths.js:157-176 | the line of a file is the lines of what its `extends` names resolve to from its directory, in their order, and then the file |
| TsconfigPaths.LineAlone | node/qn/tsconfig-paths.js:171-178 | a file that does not parse stands alone |
| TsconfigPaths.RanksAgree | node/qn/tsconfig-paths.js:148-191 | the line of inheritance does not depend on how the absence of cycles is witnessed |
| TsconfigPaths.MatchFills | node/qn/tsconfig-paths.js:76-84 | a key captures exactly what put in place of its first star gives the specifier |
| TsconfigPaths.KeyMatches | node/qn/tsconfig-paths.js:76-84 | the same for a key written as a prefix without a star, a star and any suffix, and for a key without a star |
| TsconfigPaths.CompareIsOrder | node/qn/tsconfig-paths.js:65-72 | the comparator is an order a sort can rely on |
| TsconfigPaths.FirstMatch | node/qn/tsconfig-paths.js:248-259 | the first matching key of a sorted list is a least one among those that match |
| TsconfigPaths.BestIsMostSpecific | node/qn/tsconfig-paths.js:61-73 | that key is the specifier itself if it is a key, else has the longest prefix |
| Bundle.Bundler.ResolveDep | node/qn/bundle.js:452-473 | outside, forbidden or an id, with the file pushed unless loaded |
| Bundle.Bundler.LoadModule | node/qn/bundle.js:402-446 | every import of a file gets the id of its target, or the file is at fault |
| Bundle.Bundler.BundleEntry | node/qn/bundle.js:367-475 | ends; succeeds if and only if nothing reachable is at fault; then modules are exactly the reachable files, ids are their own, no import dangles; the error is that the entry is missing, or names a reachable file at fault |
| Bundle.Progress | node/qn/bundle.js:396-447 | each file loaded is one fewer to load, however often it was pushed |
| Bundle.Finish | node/qn/bundle.js:396-449 | an empty worklist means everything reachable is loaded |
| BundleLaws.EdgeMeans | node/qn/bundle.js:452-473 | a file leads to another if and only if some import of it, or its runtime import, is no external, does not begin with "node:" and resolves to that file |
| BundleLaws.FaultMeans | node/qn/bundle.js:457-465 | a file is at fault if and only if it cannot be parsed, is not plain, or imports a builtin for the browser that is no external |
| BundleLaws.DepsMean | node/qn/bundle.js:404-438 | each import in its place, and the runtime import behind them, has the id of the file it leads to, or none |
| Bundle.ApplyRewrites | node/qn/bundle.js:282-294 | each import is replaced, or left as it was, in its place |
| Bundle.NothingRewritten | node/qn/bundle.js:282-294 | replacing imports by their own text changes nothing |
| BundleLaws.OneRewritten | node/qn/bundle.js:282-294 | rewriting one import replaces its range and nothing else |
| ModuleNames.NormalizeJs | qnc/qnc.js:164-181 | the JavaScript loop |
| ModuleNames.NormalizeC | module_resolution/module-resolution.h:474-533 | the C loop in its fixed buffer, which is never too small |
| ModuleNames.AgreeExactly | module_resolution/module-resolution.h:505-525 | both give the same name if and only if the C loop can take every leading "../" |
| ModuleNamesLaws.BareNames | module_resolution/module-resolution.h:481-484 | a name without a leading dot is left alone by both |
| ModuleNamesLaws.HereMeans | qnc/qnc.js:166-180 | a leading "./" puts the rest behind the importing file's directory, in both |
| ModuleNamesLaws.UpMeans | qnc/qnc.js:173-177 | a leading "../" goes on from one directory up, in C unless that directory is "." or ".." |
| ModuleNamesLaws.UpKept | module_resolution/module-resolution.h:507-517 | where the C code does not go up it keeps the "../" |
| ModuleNamesLaws.StrippedIs | qnc/qnc.js:316-324 | stripping takes the directory and a slash off the front, and leaves other paths alone |
| ModuleNames.StrippingCommutes | module_resolution/module-resolution.h:894-909 | within the base all four results agree, and normalising against the absolute base and stripping is normalising against the relative one |
| ModuleNames.JsStripsExactly | qnc/qnc.js:164-181 | stripping commutes with the JavaScript normaliser if and only if the name climbs no higher than the base is deep, or past the root without naming the directory again |
| ModuleNames.CStripsExactly | module_resolution/module-resolution.h:505-525 | and with the C one if and only if it does not leave the base, or cannot leave the working directory |
| ModuleNames.ResultIsPlain | module_resolution/module-resolution.h:1047-1050 | within the depth of plain base directories the result is plain, so that it is in normal form |
| ModuleNames.ClimbingOut | qnc/qnc.js:316-324 | an import that leaves its base and does not commute |
| ModuleNames.ClimbingPastRoot | qnc/qnc.js:316-324 | one that passes the root and does |
| Utf8Decoder.Utf8Decoder.Decode | node/node/child_process/ChildProcess.js:23-48 | the slice handed on and the bytes kept, for any bytes |
| Utf8Decoder.CutsAtCodePoints | node/node/child_process/ChildProcess.js:32-46 | a whole text is not cut, one that ends within a code point is cut before it |
| Utf8Decoder.CutsBy | node/node/child_process/ChildProcess.js:32-46 | any bytes are cut before their last byte that is no continuation byte if it announces more than is there, and else not at all |
| Utf8Decoder.NothingLost | node/node/child_process/ChildProcess.js:21-55 | whatever the bytes are, slices and pending bytes are the bytes given |
| Utf8Decoder.CarriesAtMostThree | node/node/child_process/ChildProcess.js:41-44 | at most three bytes are kept at any point of a text |
| Utf8Decoder.SlicesAreWhole | node/node/child_process/ChildProcess.js:21-55 | for every valid text under every chunking: slices are whole code points, join to the text, and nothing is left to flush |

## Left out

- GitPack.IndexIsExact: needs pairwise distinct contents, since the index keeps one entry per hash; `readPackObject` calls itself once per delta, and a call stack of at least as many frames as the pack has entries is assumed.
- GitPack.InMemoryIndex.Scan: the recorded hash of an object that is not a delta is not compared with its size field, which the scan does not do either; only packs whose entries can be inflated at their offsets reach the index laws.
- Gzip.StreamGunzips: errors in the compressed data are not modelled, and the checksum of an empty chunk is taken to leave the checksum alone.
- ZlibRun.Run: an unflushed compressor is taken to hold nothing back when it returns with room left and its input used up; flush modes other than none and finish are not covered.
- SandboxedWorker.NothingLeaked: says nothing of workers that listed their port, which never come to an end.
- SandboxedWorker.StepKeeps: the parent's receiving loop is outside these files and is taken to perform the same statements as the worker's; writes to the wake-up pipe succeed after retries and a read finds the bytes that are there.
- StreamLife.FreedExactlyOnce: `linked` stands for membership in the list of `HandleList`, whose operations are proved on their own; the state machines do not carry the list itself.
- StreamLife.RunKeeps: requests are accepted on open handles only and answered before the close callback, which comes once; runtime shutdown, and the path that frees a linked struct when `uv_tcp_init` fails, are not part of this model.
- PtyLife.RunKeeps: the event loop does not run inside the exit handler; a failure to make the object in `PTY_SPAWN`, which the code does not check, is not part of this model.
- TsconfigPaths.Loader.LoadConfig: on cyclic graphs only termination is proved, because there the result depends on which file is loaded first; resolving an `extends` name and JSON parsing are given functions.
- Bundle.Bundler.BundleEntry: parsing, transforming and resolving are given functions; an id stands for "m" followed by its number; warnings and the list of used externals are not modelled.
- ModuleNames.ResultIsPlain: that a plain absolute path is its own real path needs a file system without symbolic links.
- Archive.Extract: the cache stamp, output paths, file modes and files that cannot be created are not modelled.
- Utf8Decoder.SlicesAreWhole: is about byte slices; what the text decoder does with a byte-order mark is not modelled.
- `PackIndex.find` (node/qn/git.js:107-160), whose comparison takes the wrong branch; loose objects, references and fetching.
- `createUnzip` streams and data behind the end of a deflate stream; the two asynchronous one-shot functions, which frame as the synchronous ones do.
- Worker and process handle lifetimes, timers and polls: they follow other patterns.
- QuickJS, libuv, miniz, the Sucrase parser, HTTP and file access: foreign code, present only as the parameters named above.
- Command lines, code generation text, the test runner, `node:*` stubs and dispatchers: they would add only easy members.
