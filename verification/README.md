# DockerFuse: a verified model of the client/satellite protocol

DockerFuse mounts a container's filesystem. A client turns FUSE operations into RPC requests; a
satellite inside the container carries them out with system calls and keeps a table of open
files. This project models that protocol in Dafny and proves what holds over every run of it.
`dafny verify dfyconfig.toml` checks everything.

| file | contents |
|---|---|
| `OpenFlags.dfy` | open() flags between two platforms |
| `ErrorCodec.dfy` | errors printed on the satellite, parsed on the client |
| `Kernel.dfy` | the container's operating system, as far as the handlers use it |
| `Satellite.dfy` | the handle table and the file handlers: a class, and the same behaviour as a step function |
| `HandleTable.dfy` | ownership, panics, counting, dead handles, Flush and Release |
| `Opening.dfy` | opens in the caller's flags, and a path leads to one file |
| `Seeking.dfy` | where Seek leads, and that a position lasts |
| `SeekErasure.dfy` | cursors have no influence on anything but Seek |
| `Client.dfy` | the client half of each file operation |
| `Refinement.dfy` | the composed system refines handles onto byte files |
| `Appending.dfy` | handles opened for appending |
| `Contents.dfy` | reads as slices, read after write |
| `SetAttrRequest.dfy`, `SetAttr.dfy` | attribute changes: the request bitmap and the four system calls |
| `ReadDir.dfy` | directory listing |
| `Connection.dfy` | ownership of the RPC connection |
| `NodePaths.dfy` | paths of filesystem nodes |

## Assumptions

- Each RPC handler is one atomic step. The code takes no lock, so this is an assumption.
- Whatever the operating system decides (errnos, descriptor numbers, how much of a failed transfer
  took place) is a `Choice` argument, and theorems hold for every choice. File objects are fresh, a
  Close releases the descriptor even when it reports an error, `ReadAt` and `WriteAt` conform to
  Go's `io.ReaderAt` and `io.WriterAt`. File errors are path errors holding an errno, except those
  `os.File` makes itself: closed file, negative offset, and WriteAt in append mode.
- Only where stated: the number of a new descriptor is not the number of an open one (section 2.14
  of POSIX.1-2017 XSH, File Descriptor Allocation).
- A platform is any table of ten non-empty, pairwise disjoint flag masks, and any table of positive
  errnos that is injective on the names `ErrnoToSym` lists. Flag words and bitmaps are represented
  by the set of their one-bits.
- net/rpc delivers a reply or an error text. A panic ends the satellite: the call during which it
  happens gets net/rpc's "unexpected EOF", every later call "connection is shut down", and nothing
  changes any more.
- SetAttr is one pipeline over a file's attributes (`SetAttr.dfy`). Its truncation is also an event of
  the runs over open handles (`Truncate`), as a request that asks for the size only; the two agree
  (`SizeOnlyIsTruncate`).

## What the proofs show about the code

- **Release after reuse.** Flush and Release both close the handle. If the descriptor number is
  given to another open in between, Release closes that other file. `FlushThenRelease` says exactly
  when the second close is harmless; `ReleaseAfterReuse` exhibits the failing family.
- **Abandoned entries.** An open that fails at `fd.Stat` leaves its file in the table under a number
  no caller was given. Outcomes agree with the specification exactly when the operation names no such
  entry (`AbandonedHandlesShow`). A caller that names only handles it holds never does
  (`SystemRefines`), but the second close of Flush and Release can (`ReleaseReachesAbandoned`).
- **Panics.** A negative offset or count on a live handle panics the satellite, because the encoder
  has no fallback for a payload that is not an errno (or, for a count, because of `make`). Nothing
  else does (`LostIffMalformed`), and a request of a run is answered exactly when neither it nor an
  earlier one was of this kind (`AnsweredIffHarmless`). The caller sees EIO from then on, never an
  empty read (`PanicIsEio`).
- **Append handles.** `WriteAt` refuses files opened with O_APPEND, so every write through such a
  handle fails with EIO, for every behaviour of the system, and it does so exactly when the caller's
  open flags named O_APPEND (`AppendHandleNeverWrites`). The specification in `Refinement.dfy` has
  both readings, a write at the end of the file and the refusal. The system refines the second
  throughout, and the first exactly where no such write occurs (`DeparturesExact`,
  `RunRefinesIntended`).
- **Attributes.** `os.FileMode(m)` keeps only the nine permission bits of a requested Unix mode, and the
  owner id 0xFFFFFFFF means "leave alone". `OverrideExact` makes this an if-and-only-if.

## Model

| member | source | states |
|---|---|---|
| `OpenFlags.SystemToSAFlags` | pkg/rpccommon/utils.go:37-72 | for each of the ten flags, the wire word has it exactly when the input contains that flag's own mask; translating it back asks for no bit the input lacks |
| `OpenFlags.SAFlagsToSystem` | pkg/rpccommon/utils.go:78-113 | for each of the ten flags, the result contains its own mask exactly when the wire word has it; the result has no bit outside the masks asked for |
| `OpenFlags.SystemRoundTrip` | pkg/rpccommon/utils.go:37-113 | system to wire to system gives the largest expressible word within the input, same names, idempotent, lossless exactly on expressible words |
| `OpenFlags.TripMonotone` | pkg/rpccommon/utils.go:37-113 | the system round trip is monotone |
| `OpenFlags.WireRoundTrip` | pkg/rpccommon/utils.go:37-113 | wire to system to wire keeps the low ten bits |
| `OpenFlags.CrossPlatform` | pkg/rpccommon/utils.go:14-18 | a trip between any two platforms preserves the set of flag names |
| `OpenFlags.RealPlatformsAreValid` | pkg/rpccommon/utils.go:14-31 | the masks of Linux (two-bit O_SYNC) and Darwin satisfy the assumptions |
| `ErrorCodec.SymbolRoundTrip` | pkg/rpccommon/utils.go:123-302 | every listed name survives name to errno to name |
| `ErrorCodec.Printed` | pkg/rpccommon/utils.go:499-519 | the texts that travel, for every listed errno in any wrapping and for other errors |
| `ErrorCodec.PrefixSplits` | pkg/rpccommon/utils.go:526-528 | splitting at the first space recovers exactly the text after the prefix, whatever it is |
| `ErrorCodec.DecoderExact` | pkg/rpccommon/utils.go:309-532 | the decoder on every text: prefix and a known name, alias or not, is that errno, anything else EIO |
| `ErrorCodec.ErrorRoundTrip` | pkg/rpccommon/utils.go:499-532 | panics exactly on a non-errno payload; otherwise the text is non-empty and parses to the client's errno of the same name, or EIO for unlisted errnos and unknown texts, never 0; only end-of-file prints as EOF |
| `ErrorCodec.PortableInjective` | pkg/rpccommon/utils.go:115-121 | distinct listed errnos stay distinct across platforms |
| `ErrorCodec.VocabularyQualifies` | pkg/rpccommon/utils.go:123-492 | the program's 87 symbols and two aliases form a valid channel for all valid tables |
| `Satellite.DockerFuseFSOps.constructor` | cmd/satellite/server/server.go:21-25 | the table starts empty |
| `Satellite.DockerFuseFSOps.CloseAllFDs` | cmd/satellite/server/server.go:28-33 | in any order of iteration, every entry is closed once more and the table ends empty |
| `Satellite.DockerFuseFSOps.Open` | cmd/satellite/server/server.go:99-136 | table, system and reply after an open, including a displaced entry and a failing fstat; ownership kept |
| `Satellite.DockerFuseFSOps.Close` | cmd/satellite/server/server.go:139-153 | the key is gone whether or not closing reported an error; ownership kept |
| `Satellite.DockerFuseFSOps.Read` | cmd/satellite/server/server.go:156-172 | the reply, with short data at end of file a success and empty data an EOF error; a negative count is a panic |
| `Satellite.DockerFuseFSOps.Seek` | cmd/satellite/server/server.go:175-190 | cursor and reply; table and contents untouched |
| `Satellite.DockerFuseFSOps.Write` | cmd/satellite/server/server.go:193-208 | contents and reply, including partly written failures; table and cursors untouched |
| `Satellite.DockerFuseFSOps.Fsync` | cmd/satellite/server/server.go:222-235 | the reply; nothing changes |
| `Satellite.DockerFuseFSOps.Truncate` | cmd/satellite/server/server.go:361-372 | contents and reply of a SetAttr that asks for the size only, including a failing lstat after it; table and file objects untouched |
| `Satellite.DockerFuseFSOps.Serve` | cmd/satellite/server/server.go:28-235 | a request over net/rpc: the handler's effect, the printed error, and the end of the process when handler or error encoder panics; ownership kept |
| `Satellite.StepOwned` | cmd/satellite/server/server.go:99-235 | every request keeps the ownership invariant: entries are open and stored under their own number, everything else was closed once |
| `HandleTable.Conservation` | cmd/satellite/server/server.go:28-153 | in every reachable state, of a living or a dead satellite, holders plus close calls of each file ever opened is exactly one |
| `HandleTable.StaleBranchUnreachable` | cmd/satellite/server/server.go:107-111 | with free descriptor numbers the stale-entry branch is never taken |
| `HandleTable.OpenEffect` | cmd/satellite/server/server.go:99-136 | the exact effect of an open, displaced entry included: denied with ENOENT or EEXIST and nothing changed, or the named file (emptied only by O_TRUNC) or a new empty one in the table |
| `HandleTable.OpenAddsEntry` | cmd/satellite/server/server.go:99-136 | with free descriptor numbers the same open adds one entry and touches no other, abandoned files included |
| `HandleTable.NoUseAfterClose` | cmd/satellite/server/server.go:99-235 | in every reachable state, every file object the next request calls a method on was never closed |
| `HandleTable.LostIffMalformed` | cmd/satellite/server/server.go:156-208 | a living satellite is lost exactly on a negative count or offset on a live handle (offset only for reads and non-appending writes); a dead one stays dead; the error text is net/rpc's for each case |
| `HandleTable.AliveIffHarmless` | cmd/satellite/server/server.go:156-208 | the satellite survives a run if and only if no request of it was malformed when it arrived |
| `HandleTable.AnsweredIffHarmless` | pkg/rpccommon/utils.go:499-506 | a request of a run is answered if and only if neither it nor an earlier one was malformed |
| `HandleTable.RunSurvives` | pkg/rpccommon/utils.go:499-506 | a living satellite survives every run of non-negative offsets and counts and answers every request of it |
| `HandleTable.CountingLaw` | cmd/satellite/server/server.go:102-116 | table size is opens answered plus opens abandoned at fstat minus closes that reached a satellite with the key in its table |
| `HandleTable.HeldHandlesAreKeys` | cmd/satellite/server/server.go:107-153 | every handle given and not closed is a key of the table |
| `HandleTable.DeadHandle` | cmd/satellite/server/server.go:139-235 | while no open gets the number, requests on a dead handle fail as bad handles as long as the satellite lives, and erasing them changes no other reply and no state |
| `HandleTable.FlushThenRelease` | cmd/dockerfuse/client/dockerfuse_fs.go:70-81 | the file is closed exactly once; Release changes nothing if and only if the satellite died or no open holds the number since, and is then a bad handle to a living satellite; otherwise it closes that open's file |
| `HandleTable.ReleaseAfterReuse` | cmd/dockerfuse/client/dockerfuse_fs.go:70-81 | for every live handle and existing path, a permitted reuse of the number after which Release kills the new owner's handle |
| `SeekErasure.SeekErasure` | cmd/satellite/server/server.go:156-208 | two runs, with and without Seek: all other replies, the table, all contents and whether the satellite lives agree |
| `SeekErasure.TransfersKeepCursors` | cmd/satellite/server/server.go:164-201 | reads and writes move no cursor |
| `Seeking.SeekLands` | cmd/dockerfuse/client/client.go:332-343 | a seek leads from the start, the cursor or the end of the file, by whence; negative targets are EINVAL; nothing else changes |
| `Seeking.RelativeSeek` | cmd/satellite/server/server.go:175-190 | over runs: a relative seek starts where the last seek on the handle ended |
| `Client.BadHandleIsEinval` | cmd/satellite/server/server.go:142-144 | the caller of a dead handle sees its own platform's EINVAL |
| `Client.LostIsEio` | pkg/rpccommon/utils.go:525-532 | the error texts of a dead connection parse to EIO for every operation, a read included |
| `Client.DockerFuseClient.Open` | cmd/dockerfuse/client/client.go:284-301 | flags translated, request carried out, error parsed |
| `Client.DockerFuseClient.Close` | cmd/dockerfuse/client/client.go:303-313 | request carried out, error parsed |
| `Client.DockerFuseClient.Read` | cmd/dockerfuse/client/client.go:315-330 | the EOF text becomes an empty success, other texts an errno |
| `Client.DockerFuseClient.Seek` | cmd/dockerfuse/client/client.go:332-343 | request carried out, error parsed |
| `Client.DockerFuseClient.Write` | cmd/dockerfuse/client/client.go:345-356 | request carried out, error parsed |
| `Client.DockerFuseClient.Fsync` | cmd/dockerfuse/client/client.go:368-376 | request carried out, error parsed |
| `Client.DockerFuseClient.Truncate` | cmd/dockerfuse/client/client.go:458-501 | a setAttr of the size only: request carried out, error parsed |
| `Refinement.PanicIsEio` | cmd/dockerfuse/client/client.go:284-376 | after any run: the operation that panics the satellite and every later one end with EIO and change nothing else; all others leave it alive |
| `Refinement.StepRefines` | cmd/dockerfuse/client/client.go:284-376 | one operation gives the outcome of the specification with refused appends, and the simulation is kept |
| `Refinement.RunRefines` | cmd/dockerfuse/client/client.go:284-376 | over every run that names no abandoned handle, data, counts, offsets and errnos are those of the specification with refused appends |
| `Refinement.SystemRefines` | cmd/satellite/server/server.go:99-235 | from a fresh satellite, for every caller that names only handles it was given and has not closed, whatever fails, outcomes are those of the specification |
| `Refinement.SystemRefinesAnyHandle` | cmd/satellite/server/server.go:99-235 | from a fresh satellite, when the fstat of no open fails, the same for callers that name any numbers, live or dead |
| `Refinement.AbandonedHandlesShow` | cmd/satellite/server/server.go:111-116 | outcomes agree with the specification with refused appends for all system choices if and only if the handle is not an abandoned one |
| `Refinement.DeparturesExact` | cmd/satellite/server/server.go:192-208 | outcomes agree with the intended specification for all system choices if and only if the operation names no abandoned entry and is no write through an appending handle |
| `Refinement.RunRefinesIntended` | cmd/satellite/server/server.go:192-208 | a run in which the system refuses no write matches the intended specification if and only if no write goes through an appending handle |
| `Refinement.ReleaseReachesAbandoned` | cmd/dockerfuse/client/dockerfuse_fs.go:70-81 | for every held handle and existing path: Flush, a reuse of the number by an open that fails at fstat, and a Release that succeeds where the specification answers EINVAL |
| `Refinement.FirstOpenHolds` | cmd/satellite/server/server.go:99-136 | such a held handle exists after the first open of any fresh satellite |
| `Appending.WriteRefusedIffAppending` | cmd/satellite/server/server.go:201-204 | a write fails with EIO and changes nothing for all system choices if and only if the entry was opened for appending |
| `Appending.OpenedForAppending` | cmd/dockerfuse/client/client.go:284-301 | an open answered with a handle enters an appending file exactly when the caller's flags name O_APPEND |
| `Appending.AppendHandleNeverWrites` | cmd/satellite/server/server.go:193-208 | over runs: while the handle of an open is neither closed nor displaced, writes through it are refused for all system choices if and only if its flags named O_APPEND |
| `Contents.ReadIsSlice` | cmd/dockerfuse/client/client.go:315-330 | a read returns the existing bytes of its window, empty with no error at or past the end |
| `Contents.ReadOnIsSlice` | cmd/satellite/server/server.go:164-171 | reads of any sizes at advancing offsets concatenate to one long read |
| `Contents.WholeFile` | cmd/satellite/server/server.go:164-171 | enough reads of positive sizes yield the whole file, and the next read is empty |
| `Contents.LastWriterWins` | cmd/satellite/server/server.go:193-208 | replaying writes and truncations leaves at each position its last writer's byte, zeros in gaps and after a cut |
| `Contents.ReadAfterWrite` | cmd/satellite/server/server.go:156-208 | after any run through any handles and by path, a read returns what the last writers left if no request of the run was malformed, and EIO otherwise |
| `Contents.OpenSeesWrites` | cmd/satellite/server/server.go:99-208 | after any harmless run, an open of a path and a read through it return what the last writers of the run left in its file, or nothing after O_TRUNC |
| `Opening.OpenExact` | cmd/dockerfuse/client/client.go:284-301 | an open from the caller's side, in the caller's own masks and errnos: ENOENT and EEXIST exactly when due, the file reached, what changes and what does not, the handle |
| `Opening.RunKeepsName` | cmd/satellite/server/server.go:99-136 | over every run of these requests a name keeps leading to its file |
| `Opening.OpensMeet` | cmd/dockerfuse/client/client.go:284-301 | two answered opens of one path lead to the same file, whatever happens in between |
| `SetAttrRequests.SetAttrRequest.constructor` | cmd/dockerfuse/client/client.go:464-464 | a new request asks for nothing |
| `SetAttrRequests.SetAttrRequest.SetMode` | pkg/rpccommon/rpc_types.go:258-258 | its own getter returns the value, every other getter what it returned before |
| `SetAttrRequests.SetAttrRequest.SetUID` | pkg/rpccommon/rpc_types.go:261-261 | its own getter returns the value, every other getter what it returned before |
| `SetAttrRequests.SetAttrRequest.SetGID` | pkg/rpccommon/rpc_types.go:264-264 | its own getter returns the value, every other getter what it returned before |
| `SetAttrRequests.SetAttrRequest.SetATime` | pkg/rpccommon/rpc_types.go:267-267 | its own getter returns the value, every other getter what it returned before |
| `SetAttrRequests.SetAttrRequest.SetMTime` | pkg/rpccommon/rpc_types.go:270-270 | its own getter returns the value, every other getter what it returned before |
| `SetAttrRequests.SetAttrRequest.SetSize` | pkg/rpccommon/rpc_types.go:273-273 | its own getter returns the value, every other getter what it returned before |
| `SetAttrRequests.SetterRunFromEmpty` | pkg/rpccommon/rpc_types.go:209-273 | after any interleaving of setters each getter returns its field's last value, or absent if there was none |
| `SetAttrRequests.BuildRequest` | cmd/dockerfuse/client/client.go:464-482 | the request asks for exactly the attributes FUSE asked for |
| `SetAttrPipeline.TimespecExact` | cmd/satellite/server/server.go:346-353 | normalisation is exact with nanoseconds in [0, 10^9), so a requested time never equals UTIME_OMIT |
| `SetAttrPipeline.TimespecInjective` | cmd/satellite/server/server.go:346-353 | distinct times stay distinct |
| `SetAttrPipeline.Target.SetAttr` | cmd/satellite/server/server.go:313-373 | the calls made are the plan up to the first refused one, the attributes show exactly the completed prefix; the error is that of the first refused group in order, bare for the times only; the reply holds the final attributes field by field |
| `SetAttrPipeline.SetAttr` | cmd/dockerfuse/client/client.go:458-501 | the same from the caller's side, with portable errnos |
| `SetAttrPipeline.PlanInOrder` | cmd/satellite/server/server.go:316-366 | one call per wished group of attributes, in the order chmod, chown, utimes, truncate |
| `SetAttrPipeline.FirstErrorDecides` | cmd/satellite/server/server.go:316-366 | the first wished group, in order, that the system refuses decides the error, then EINVAL for sizes of 2^63 and more, otherwise none |
| `SetAttrPipeline.AttributesLeft` | cmd/satellite/server/server.go:316-366 | a run cut short, attribute by attribute: each group changes exactly when wished and neither it nor an earlier wished group is refused |
| `SetAttrPipeline.FullRun` | cmd/satellite/server/server.go:316-366 | attribute by attribute, what a complete run leaves |
| `SetAttrPipeline.PermissionBitsMeaning` | cmd/satellite/server/server.go:316-320 | chmod keeps the low nine bits of every mode and drops the set-id and sticky bits of a Unix mode |
| `SetAttrPipeline.OverrideExact` | cmd/satellite/server/server.go:316-366 | for every inode and wish, a complete run is a pointwise override if and only if the mode has nothing beyond the nine permission bits and no reserved owner id is asked for that the file does not have |
| `SetAttrPipeline.SizeAccepted` | cmd/satellite/server/server.go:362-366 | sizes of 2^63 and more are always refused |
| `SetAttrPipeline.SizeOnlyIsTruncate` | cmd/satellite/server/server.go:361-372 | for a wish of the size alone, calls made, contents, untouched attributes and error are those of the Truncate request of the runs |
| `ReadDir.ReadDirSatellite` | cmd/satellite/server/server.go:68-96 | exactly the existing entries, each once, in order, name, inode and mode unchanged, or EIO if any Info fails otherwise |
| `ReadDir.ExistingLists` | cmd/satellite/server/server.go:74-93 | the satellite's filter places each existing entry at its rank |
| `ReadDir.ReadDirClient` | cmd/dockerfuse/client/client.go:260-282 | composed with the satellite: exactly the existing entries with inode above 2, each once, in order, name, inode and mode unchanged, or the error |
| `ReadDir.LoopsListShown` | cmd/dockerfuse/client/client.go:269-279 | the two filters in sequence place each shown entry at its rank |
| `Connection.Connector.ConnectSatellite` | cmd/dockerfuse/client/client.go:179-202 | the old RPC client, if any, is closed once more and no other; success adds a new one and uses it, failure leaves none in use |
| `Connection.Connector.Disconnect` | cmd/dockerfuse/client/client.go:117-122 | the RPC client in use, if any, is closed once and forgotten |
| `Connection.ConnectionOwnership` | cmd/dockerfuse/client/client.go:117-202 | over every run at most one RPC client is live and none is closed twice; none is live exactly after a failed connect or a disconnect |
| `NodePaths.ChildExactlyWhenPlain` | cmd/dockerfuse/client/dockerfuse_fs.go:134-134 | for every name, a child lies one component below its parent, under that name, if and only if the name is plain |
| `NodePaths.CleanRules` | cmd/dockerfuse/client/dockerfuse_fs.go:134-134 | the four rules of filepath.Clean, anywhere in any path |
| `NodePaths.CleanText` | cmd/dockerfuse/client/dockerfuse_fs.go:134-134 | cleaning a path with one more plain name appends that name, after one slash, to the clean path; what the empty, root and dot paths clean to |
| `NodePaths.CleanIdempotent` | cmd/dockerfuse/client/dockerfuse_fs.go:134-134 | cleaning twice, as the code does after Join, changes nothing, for rooted and relative paths |
| `NodePaths.ChainPath` | cmd/dockerfuse/client/dockerfuse_fs.go:44-187 | a node's path is the clean mount path followed by its chain of names |
| `NodePaths.ChainsStayApart` | cmd/dockerfuse/client/dockerfuse_fs.go:44-187 | distinct chains have distinct paths, all under the mount path |

## Left out

- Interleaving inside handlers: the table has no lock, so nothing is claimed about overlapping handlers.
- Stat, Unlink, Rmdir, Link, Symlink, Readlink, Mkdir: each forwards one call. In the runs modelled here, names are therefore only added, by opens.
- Satellite.DockerFuseFSOps.Open: the reply carries handle, inode number and size; the other stat fields and the link target, which are copied, are not modelled.
- Client.DockerFuseClient.Open: returns handle, inode number and size; the file mode, copied from the reply, is not modelled, and create differs from open only in such copies.
- Satellite.DockerFuseFSOps.Truncate: the attributes that the final lstat returns are not in the reply; `SetAttrPipeline.Target.SetAttr` has them.
- Client.DockerFuseClient.Truncate: returns success or an errno, not the attributes; `SetAttrPipeline.SetAttr` returns them.
- Changes to files by other processes in the container during a run.
- Access modes: a read or write refused for lack of permission is one of the system's choices.
- Rename: its destination uses the mount-relative path, and nodes keep their old path afterwards.
- Lookup's file-type switch: single-branch bit tests that do not identify every file type.
- Docker API calls, the satellite upload, both main programs, signals and logging.
- net/rpc, gob and the go-fuse inode tree; failures of the connection while the satellite lives, and their other texts; a crash during allocation of a very large read buffer.
- Side effects between attributes (chown clearing set-id bits, truncate refreshing times): calls are field-local.
- Times outside the range of 64-bit nanoseconds, which Go's UnixNano does not define.
- Relative mount paths: Clean and Join are characterised for them too, but the theorems about nodes are about rooted ones.
- 64-bit overflow of offsets: offsets and positions are unbounded integers.
