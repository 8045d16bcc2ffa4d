# fs-utils core, modelled in Dafny

fs-utils runs classic file utilities against a file system image through the
rump kernel. This project models three parts of those utilities:

- **The copy engine of `cp`** (`src/utils.c`, the build without the rump
  syscall redirection). It covers:
  - `copy_file`: open the source, decide how to open or create the
    destination, move the bytes, then restore attributes;
  - `copy_link`, `copy_fifo` and `copy_special`;
  - `setfile` and `set_utimes`;
  - the mode masks.
- **`mkdir`** (`src/mkdir.c`): `builddirs`, `fsu_mkpath`, and `main`'s mode
  defaults and its loop over the operands.
- **`fsu_write`** (`src/fsu_write.c`): the chunked copy of standard input
  into a file, and `main`'s exit status.

## The model

**The file system.** The file system the utilities talk to is the class
`FsModel.FileSystem`:
- a map from canonical path names to nodes;
- a log of every call made, in order;
- the creation mask and the clock of the backend.

Every call is a pure step function on a `World` value, such as `OpenStep`,
`WriteStep`, `ChownStep` or `MkdirStep`; the class's methods apply them. A
call fails when the state forces it (ENOENT, EEXIST, EISDIR, ELOOP,
EINVAL). Otherwise it fails when an oracle says so: one `Fault`
(`Option<Errno>`) is passed per call, and a `WriteFault` also allows a short
write.

**The host process.** The process running the utility is `Process.Proc`,
which holds the umask and errno. Standard input is `Process.Stdin`.

**The operations.** Each C function is a method that issues the same calls,
in the same order, as the source. The one exception is mkdir's `main` under
`-p`, which runs the corrected `fsu_mkpath` (see Findings). Every method is proved equal to a
specification function over `World`:
- `Utils.SetfileSpec`
- `CopyFile.CopyFileSpec`
- `Mkdir.BuildFrom` and `Mkdir.MkPathSpec`
- `Mkdir.MainSpec`
- `FsuWrite.CopyFrom` and `FsuWrite.WriteSpec`

The lemmas beside each function state what the source promises about it.

**Integers.** Modes are 32-bit values (`Modes.Bits32`), masked as `bv32`.
`fsu_write` returns its `size_t` count as an `int`; the model writes out the
32-bit wrap explicitly (`FsuWrite.ToCInt`).

The source is the BSD build. On that build:
- `chflags` exists;
- `set_utimes` converts nanoseconds to microseconds with
  `TIMESPEC_TO_TIMEVAL`.

Two behaviours of the code that the model keeps as written:
- **`copy_link` and long targets.** `copy_link` reads at most MAXPATHLEN-1
  bytes of the link target. A longer target is truncated and the new link
  points to the truncated name; the call does not fail
  (`Utils.CopyLinkTarget`).
- **Modes under `mkdir -p`.** `fsu_mkpath` gives every prefix `mode` and
  then changes the terminal directory to `dir_mode`. This is the reverse of
  the roles that the comment at `src/mkdir.c` lines 167-171 gives them.
  `Mkdir.MkPathSpec` and `Mkdir.MkPath` model the code as written; `main`
  uses the corrected definition (see Findings).

## Model

| member | source | states |
|---|---|---|
| Modes.SetfileModeBits | src/utils.c:441 | setfile's mask clears the sticky bit and every file-type bit, and keeps setuid, setgid and the nine permission bits as they were |
| Modes.SetfilePermBits | src/utils.c:459 | chmod receives the 06777-masked mode and stores it with no bit lost |
| Modes.StripSetIdBits | src/utils.c:457 | after a chown failure the mode has neither setuid nor setgid, and every other bit is kept |
| Modes.CreatedStrippedBits | src/utils.c:265-266 | a destination created from the source mode minus setuid/setgid has neither bit and no bit the creation mask forbids; otherwise it has the source's permission bits |
| Modes.RetainModeBits | src/utils.c:347-355 | the retained mode `st_mode & RETAINBITS & ~umask` has no file type and no umask bit, and keeps setuid, setgid, sticky and the permission bits |
| Modes.RetainPermBits | src/utils.c:355 | fchmod stores the retained mode with no bit lost |
| Utils.ToTimeval | src/utils.c:102-103 | TIMESPEC_TO_TIMEVAL keeps the seconds; the microseconds are the nanoseconds divided by 1000, rounded down |
| Utils.SetUtimesSpec | src/utils.c:91-111 | set_utimes returns 0 or 1 |
| Utils.SetUtimes | src/utils.c:91-111 | one lutimes of the destination with the source's converted times; returns 1 exactly when it fails |
| Utils.SetUtimesTruncates | src/utils.c:102-106 | a time set by set_utimes keeps its seconds and loses only the nanoseconds below a microsecond |
| Utils.Setfile | src/utils.c:434-487 | setfile's calls and return value are those of SetfileSpec; the mode left in the caller's stat is the masked one |
| Utils.OwnerStageOn | src/utils.c:451-458 | the chown stage reports a failure unless it is EPERM; on any failure it strips setuid/setgid from the mode; on success it sets the owner and group |
| Utils.ModeStageOn | src/utils.c:459-462 | the chmod stage reports every failure; on success it stores the mode computed so far |
| Utils.FlagsStageOn | src/utils.c:463-482 | chflags is issued only when attempted; a failure is reported unless it is EOPNOTSUPP with zero flags |
| Utils.TimesStageOn | src/utils.c:483-485 | lutimes is issued only in the path form; a failure is reported |
| Utils.SetfileKeepsContents | src/utils.c:434-487 | setfile never changes the bytes of any file |
| Utils.SetfileResultIff | src/utils.c:439-486 | on an existing destination, setfile returns 1 exactly when one of these failed: chown with an errno other than EPERM, chmod, an attempted chflags (other than EOPNOTSUPP with no flags), or the path-form lutimes |
| Utils.SetfileCallOrder | src/utils.c:440-485 | setfile issues chown, then chmod, then chflags (unless the source is a symlink or -N is given), then lutimes (path form only), each once, whatever the earlier calls returned; chmod gets the masked mode, stripped of setuid/setgid exactly when chown failed |
| Utils.SetfileNodesNoFault | src/utils.c:451-485 | without failures, setfile returns 0 and replaces only the destination node, giving it the source's attributes |
| Utils.SetfilePreserves | src/utils.c:434-487 | without failures, the destination gets the source's owner, group and masked mode, its flags unless skipped, and its times in the path form; no other node changes |
| Utils.CopyLink | src/utils.c:374-394 | copy_link's calls and return value are those of CopyLinkSpec |
| Utils.CopyFifo | src/utils.c:396-408 | copy_fifo's calls and return value are those of CopyFifoSpec |
| Utils.CopySpecial | src/utils.c:410-422 | copy_special's calls and return value are those of CopySpecialSpec |
| Utils.ReplaceFailure | src/utils.c:399-406 | a failed unlink or making call returns 1 and issues nothing after it; the destination is gone exactly when it was unlinked |
| Utils.ReplaceMade | src/utils.c:403-407 | without -p a copier that makes its entry returns 0, and the destination name holds exactly the new node |
| Utils.ReplacePreserved | src/utils.c:407 | with -p the copier returns setfile's result in the path form: 1 exactly when one of setfile's calls failed as setfile counts it |
| Utils.CopyLinkTarget | src/utils.c:378-393 | a failed readlink returns 1 and changes nothing; otherwise the new link's target is the source's target cut to MAXPATHLEN-1 bytes, and unchanged when it fits |
| CopyFile.ChunkLoop | src/utils.c:319-332 | the chunked loop returns 0 or 1 |
| CopyFile.Transfer | src/utils.c:291-333 | the transfer returns 0 or 1 |
| CopyFile.Finish | src/utils.c:341-369 | the phases after the transfer return 0 or 1 |
| CopyFile.CopyFileSpec | src/utils.c:215-370 | copy_file returns 0 or 1 |
| CopyFile.CopyFile | src/utils.c:215-370 | copy_file's calls and return value are those of CopyFileSpec |
| CopyFile.OpenDest | src/utils.c:240-276 | the destination's open attempts are those of FirstOpen followed by Retry |
| CopyFile.CopyBody | src/utils.c:284-369 | the part after both opens is Body |
| CopyFile.TransferData | src/utils.c:291-333 | the data transfer is Transfer |
| CopyFile.CopyChunks | src/utils.c:319-332 | the read/write loop over the static buffer is ChunkLoop |
| CopyFile.FinishCopy | src/utils.c:341-369 | setfile, the retention, the closes and the final set_utimes are Finish |
| CopyFile.RetainSetId | src/utils.c:349-359 | the setuid/setgid retention is Retain |
| CopyFile.ChunkTurn | src/utils.c:320-326 | a complete read/write turn keeps the destination equal to the source's prefix up to the read offset; an empty read means the copy is complete |
| CopyFile.ChunkLoopCopies | src/utils.c:319-332 | when the chunked loop returns 0, the destination holds exactly the source's bytes |
| CopyFile.ChunkLoopCalls | src/utils.c:319-332 | the chunked loop only appends to the log: MAXBSIZE reads of the source and writes to the destination |
| CopyFile.ChunkLoopNodes | src/utils.c:319-332 | the chunked loop changes no node but the destination |
| CopyFile.TransferEffects | src/utils.c:291-333 | the transfer issues only reads of the source and writes to the destination, and no call for a size-0 source, which returns 0; it changes no node but the destination |
| CopyFile.ChunkLoopFails | src/utils.c:319-332 | the chunked loop returns 1 exactly when some turn, reached after complete turns, has a failed read (also one at end of file), or a failed or short write |
| CopyFile.TransferFails | src/utils.c:291-333 | the transfer returns 1 exactly when the source is not empty and either the mapped write fails, writes a count other than st_size, or munmap fails, or (above 8 MiB or when mmap fails) the chunked loop fails |
| CopyFile.TransferCopies | src/utils.c:291-333 | whether through one mapped write or the chunked loop, a transfer that returns 0 leaves the destination equal to the source and the source unchanged |
| CopyFile.RetainEffect | src/utils.c:349-359 | the fchmod is issued exactly when all hold: no -p, a new destination, a setuid/setgid source owned by the user, a successful fstat, and equal groups; it stores `st_mode & 07777 & ~umask`; a failure is reported exactly when the fstat or that fchmod failed |
| CopyFile.FinishKeepsContents | src/utils.c:341-369 | the phases after the transfer change attributes only, never bytes |
| CopyFile.BodyFailure | src/utils.c:335-339 | after a failed transfer copy_file closes both descriptors and returns 1, with no setfile and no retention calls |
| CopyFile.BodyCopies | src/utils.c:291-369 | after both opens, a copy_file that returns 0 leaves the destination holding exactly the source's bytes and the source unchanged |
| CopyFile.SourceOpenFails | src/utils.c:223-226 | when the source cannot be opened, copy_file returns 1 having issued only that open |
| CopyFile.DeclinedKeepsDest | src/utils.c:244-253 | declining the overwrite prompt returns 0 and changes no node; the only calls are the source's open and close |
| CopyFile.NewDestMode | src/utils.c:264-266 | a new destination is opened with O_CREAT and the source mode minus setuid/setgid; the file made has neither bit |
| CopyFile.RetryOnce | src/utils.c:268-276 | the unlink-and-create retry happens at most once, and only when the first attempt gave no descriptor and -f or tolnk holds |
| CopyFile.NoDestFails | src/utils.c:255-282 | a failed stat of the destination returns 1 at once; no descriptor after the retry closes the source and returns 1; either way no data moves |
| CopyFile.FirstOpenKeeps | src/utils.c:255-266 | the first open leaves every other node as it was and returns an empty, non-append descriptor |
| CopyFile.RetryKeeps | src/utils.c:268-276 | the retry leaves every node but the destination as it was and returns an empty, non-append descriptor |
| CopyFile.OpensKeep | src/utils.c:255-276 | the destination's opens leave every other node as it was and return an empty, non-append descriptor |
| CopyFile.CopyFileCopies | src/utils.c:215-370 | when copy_file returns 0 after writing the destination, that destination holds exactly the source's bytes and the source is unchanged |
| Process.InputRead | src/fsu_write.c:98 | one read of standard input returns at most the count asked and the bytes available; it fails exactly when the oracle says so |
| Process.Stdin.Read | src/fsu_write.c:98 | read(2) returns the next bytes of the input in order, removes them from the input, and records the size asked |
| Mkdir.SkipSlashes | src/mkdir.c:194 | strspn(f2, "/") stops at the first character that is not a slash |
| Mkdir.SkipName | src/mkdir.c:195 | strcspn(f2, "/") stops at the next slash or the end |
| Mkdir.NextEnd | src/mkdir.c:194-195 | the next cut lies after the current one, at a slash that follows a name character, or at the end of the path |
| Mkdir.Ends | src/mkdir.c:192-209 | the cut points end with the whole path |
| Mkdir.EndsShape | src/mkdir.c:192-209 | the prefixes grow strictly; every one but the last ends a component just before a slash (runs of slashes stay inside the next prefix); the last is the whole path |
| Mkdir.CString | src/mkdir.c:199 | the string a buffer holds stops at its first NUL |
| Mkdir.CStringCut | src/mkdir.c:199-201 | a NUL written after a prefix makes mkdir see exactly that prefix |
| Mkdir.CutBuffer | src/mkdir.c:195-201 | the buffer cut at the next end holds that prefix of the path as its string |
| Mkdir.RestoreCut | src/mkdir.c:208 | writing the slash back restores the copy of the path |
| Mkdir.BuildFrom | src/mkdir.c:192-209 | builddirs' loop returns 0 or -1 |
| Mkdir.BuildDirs | src/mkdir.c:174-214 | builddirs' calls, return value and errno are those of BuildDirsSpec; the process umask is the same afterwards |
| Mkdir.Scan | src/mkdir.c:191-209 | the loop over the private copy of the path is BuildFrom; the umask is unchanged |
| Mkdir.NextComponent | src/mkdir.c:194-199 | the pointer moves to the next end, and the copy is cut there unless the path ends there |
| Mkdir.MkdirPrefix | src/mkdir.c:201-203 | one mkdir of the prefix; the result is -1 on failure but 0 whenever errno then holds EEXIST |
| Mkdir.BuildCount | src/mkdir.c:192-209 | builddirs issues at least one and at most one mkdir per prefix, and one per prefix whenever it returns 0 |
| Mkdir.BuildCalls | src/mkdir.c:192-209 | the mkdir calls are a prefix of the calls for all the prefixes in order, each with `mode & ~mask` |
| Mkdir.BuildFailure | src/mkdir.c:201-206 | builddirs returns -1 only with an errno other than EEXIST |
| Mkdir.BuildRefused | src/mkdir.c:201-206 | when the next prefix is non-empty and names no node, and its mkdir is refused with an error other than EEXIST, builddirs returns -1 with that error after appending exactly that one mkdir, and no node changes |
| Mkdir.BuildStopsAt | src/mkdir.c:192-209 | when mkdirs k to n-1 go through and mkdir n, of a prefix no node and no earlier prefix names, is refused with an error other than EEXIST, builddirs returns -1 with that error in errno, and the log gains exactly the mkdirs of the first n-k+1 prefixes; when n == k no node changes |
| Mkdir.BuildSucceeds | src/mkdir.c:192-209 | when no mkdir is refused, builddirs returns 0 on any non-empty path |
| Mkdir.BuildExisting | src/mkdir.c:201-203 | over a path whose every prefix exists, builddirs creates nothing and returns 0: rerunning it succeeds |
| Mkdir.BuildKeeps | src/mkdir.c:201-206 | builddirs never changes or removes a node, so directories made before a failure stay; every node it adds is a directory made with the mode it was given |
| Mkdir.BuildIgnoresErrno | src/mkdir.c:201-203 | the outcome of builddirs does not depend on the errno left by an earlier call |
| Mkdir.BuildLogGrows | src/mkdir.c:192-209 | builddirs only appends to the call log |
| Mkdir.MkPath | src/mkdir.c:216-221 | fsu_mkpath's calls, return value and errno are those of MkPathSpec: builddirs with `mode`, its result dropped, then chmod of the whole path to `dir_mode` |
| Mkdir.MkPathIgnoresBuild | src/mkdir.c:219-220 | fsu_mkpath returns 0 when the terminal directory exists and chmod succeeds, even if builddirs failed |
| Mkdir.MkPathTerminal | src/mkdir.c:219-220 | as written, a successful fsu_mkpath leaves the terminal directory with the permissions of `dir_mode`, whatever `mode` is |
| Mkdir.MkPathIntendedTerminal | src/mkdir.c:167-171 | the corrected fsu_mkpath leaves the terminal directory with `mode` and makes intermediate directories from `dir_mode` |
| Mkdir.DefaultModeBits | src/mkdir.c:98 | the default mode is 0777 minus the umask: no bit outside 0777, none of the umask's |
| Mkdir.WithUserWXBits | src/mkdir.c:99 | the intermediate mode always has u+wx and keeps every other bit of the mode |
| Mkdir.MainFrom | src/mkdir.c:129-161 | main's loop records one outcome per operand |
| Mkdir.MkdirArg | src/mkdir.c:140-160 | one operand is ArgSpec: under -p, the corrected fsu_mkpath (intermediate directories from `dir_mode`, terminal chmod to `mode`); otherwise mkdir, and then a chmod when the mode has bits outside 0777 |
| Mkdir.EachArg | src/mkdir.c:129-162 | the loop handles every operand in order, and the status is failure exactly when one of them failed |
| Mkdir.MkdirMain | src/mkdir.c:80-164 | main is MainSpec: the default modes come from the umask before -m is applied; a bad -m or no operand fails before any call; the umask is left at 0; operands under -p go through the corrected fsu_mkpath |
| Mkdir.ArgDirectory | src/mkdir.c:143-159 | without -p an operand succeeds exactly when its mkdir succeeds and any needed chmod succeeds; it is then a new directory with the mode's permissions under the creation mask, or all of its 07777 bits after the chmod |
| Mkdir.ArgLog | src/mkdir.c:140-160 | handling one operand only appends to the log, and it issues that operand's mkdir, or with -p the chmod to `mode` |
| Mkdir.MainTriesAll | src/mkdir.c:129-161 | main attempts every operand in order, whatever happened to the earlier ones |
| FsuWrite.ToCInt | src/fsu_write.c:112 | the returned count is the size_t total taken modulo 2^32 as a signed 32-bit value |
| FsuWrite.ToCIntSmall | src/fsu_write.c:112 | a total below 2^31 is returned unchanged |
| FsuWrite.CopyFrom | src/fsu_write.c:96-109 | each turn of the loop is counted; the kept total lies between what was counted before and the bytes that reached the file |
| FsuWrite.Copy | src/fsu_write.c:96-109 | the do/while loop is CopyFrom: same file, descriptor, remaining input, errno and total, and every read asks for 8192 bytes |
| FsuWrite.CopyTurn | src/fsu_write.c:97-109 | one turn either ends the loop with CopyFrom's outcome or continues it with less input left |
| FsuWrite.WriteSpec | src/fsu_write.c:78-113 | with no read made, fsu_write returns -1, writes nothing and leaves the input |
| FsuWrite.FsuWrite | src/fsu_write.c:78-113 | fsu_write is WriteSpec: open with O_RDWR, O_CREAT and optionally O_APPEND at mode 0666, copy, close, return the total |
| FsuWrite.CopyKeeps | src/fsu_write.c:96-109 | the loop keeps the environment and the file, and only appends to the log |
| FsuWrite.CopyInput | src/fsu_write.c:96-109 | the bytes that reach the file are leading bytes of standard input, in order |
| FsuWrite.CopyConsumed | src/fsu_write.c:96-109 | the loop consumes leading bytes of the input; the file receives those bytes less at most one 8192-byte buffer, and all of them unless the write of the last turn fails or is short |
| FsuWrite.LastTurnInput | src/fsu_write.c:98-107 | the turn that ends the loop writes leading bytes of the remaining input, or nothing |
| FsuWrite.CopyWrites | src/fsu_write.c:96-109 | the file ends up as its old contents overwritten from the starting offset by the bytes that reached it |
| FsuWrite.CopyFrame | src/fsu_write.c:96-109 | the loop changes only the contents of the output file |
| FsuWrite.CopyDrains | src/fsu_write.c:96-109 | when every read answers and every write is complete, the loop copies the whole input and stops only at the empty read at its end |
| FsuWrite.CopyCountsAll | src/fsu_write.c:104-108 | without a short write, the total counts every byte that reached the file |
| FsuWrite.CopyStopsAtEnd | src/fsu_write.c:109 | at the end of the input the loop makes one more read, writes nothing and stops |
| FsuWrite.CopyStaleNospc | src/fsu_write.c:109 | an ENOSPC already in errno ends the loop after the first turn |
| FsuWrite.WriteNoRead | src/fsu_write.c:86-94 | nothing is read exactly when the name is NULL or the open fails; then -1 is returned, no node changes, and only the open is issued |
| FsuWrite.WriteContent | src/fsu_write.c:89-109 | after a successful open the file holds its old bytes overwritten from offset 0, or extended at the end with -a, by leading bytes of the input; there is no truncation and a new file starts empty |
| FsuWrite.WriteConsumed | src/fsu_write.c:89-109 | after a successful open, fsu_write consumes leading bytes of standard input and leaves the rest unread; the file receives the consumed bytes less at most one 8192-byte buffer, and all of them unless the write after the last read fails or is short |
| FsuWrite.WriteFrame | src/fsu_write.c:89-90 | only the opened file changes, and only its contents; a missing file is created regular with 0666 less the creation mask |
| FsuWrite.WriteCloses | src/fsu_write.c:111 | after a successful open, the last call is the close of the output file, whatever ended the loop |
| FsuWrite.WriteReturnsTotal | src/fsu_write.c:108-112 | the value returned is the total as an int; without a short write it counts every byte written; below 2^31 bytes of input it is exact |
| FsuWrite.WriteCopiesAll | src/fsu_write.c:96-112 | when every read and write succeeds, the whole input is written and its length returned |
| FsuWrite.WriteStatus | src/fsu_write.c:75 | main's status is success or failure |
| FsuWrite.WriteStatusIntended | src/fsu_write.c:73-75 | the intended status is success or failure |
| FsuWrite.CopiedInputExitsFailure | src/fsu_write.c:73-75 | as written, a run that copies a non-empty input in full exits with failure, where success is intended |
| FsuWrite.IntendedStatusReportsOpen | src/fsu_write.c:86-94 | with the intended status, main fails exactly when the file could not be opened |
| FsuWrite.FsuWriteMain | src/fsu_write.c:46-76 | with no operand main exits with failure and touches nothing; otherwise it writes standard input to the first operand and exits with the corrected status: failure exactly when fsu_write returned a negative value |

## Left out

- The `USE_RUMP` variant of copy_file (`src/utils.c`, lines 114-213) is not modelled. Nor is the forced path form of setfile in that build.
- Memory mapping: a source of at most 8 MiB is one write of its first `st_size` bytes, which may be short. Whether mmap or munmap fails is an oracle input. madvise is not modelled.
- The overwrite prompt: the first character typed is an input (`CopyFaults.answer`). The terminal I/O is not modelled.
- Open descriptors are not tracked as a resource. So the leak of the source descriptor after a failed stat of the destination is not visible: that path closes nothing, as in the source.
- Diagnostics (`warn`, `fprintf`), `usage`'s message, `setprogname` and `setlocale` are not modelled. Neither is `fsu_mount` or its failure exit.
- The model takes the results of option parsing as inputs:
  - the copy utility's global flags, user and umask (`Utils.Options`);
  - mkdir's `-p` and `-m`, where `-m` is absent, rejected by setmode, or a parsed mode (`Mkdir.ModeArg`);
  - fsu_write's `-a` and its operands.
- getopt's rejection of an unknown option is not modelled.
- setmode/getmode, the symbolic mode parser, is not modelled.
- Utils.Setfile: errno is not kept as process state for the copy utility. setfile's EPERM and EOPNOTSUPP tests read the errno of the call that just failed, which the model takes from that call's fault; `errno = 0` before chflags has no other visible effect.
- A successful call, and `warn`, leave errno unchanged in the model. Only failing calls set it.
- CopyFile.CopyFile: requires that the source and the destination are different nodes. cp's caller checks this before calling copy_file; copying a file onto itself is not modelled.
- Utils.Setfile: the caller's `struct stat` is returned as a new value (`st'`) instead of being changed in place. The copiers drop it, as their callers never read it again.
- strdup's failure in builddirs is an input (`dupFails`), not an allocator.
- Mkdir.BuildFailure: states only that errno holds a failure other than EEXIST. Mkdir.BuildStopsAt names the failure when the refused mkdir is known.
- FsuWrite.FsuWriteMain: exits with the corrected status (failure only on -1), not with `rv != 0` as at src/fsu_write.c:75; see Findings.
- Mkdir.MkdirMain: under -p, makes the directories from `dir_mode` and changes the terminal one to `mode`, not the reverse as at src/mkdir.c:219-220; see Findings.
- Mkdir.ArgSpec: under -p, runs the corrected fsu_mkpath (`MkPathIntended`), not `mkpath(*argv, mode, dir_mode)` as at src/mkdir.c:141; see Findings.
- Mkdir.MkdirArg: under -p, issues the calls of the corrected fsu_mkpath, not those of src/mkdir.c:141 as written.
- Mkdir.MainFrom: is built on ArgSpec, so under -p its outcomes are those of the corrected fsu_mkpath.
- Mkdir.EachArg: is stated for MainFrom, so under -p it covers the corrected fsu_mkpath.
- Mkdir.ArgLog: under -p, states the chmod to `mode` of the corrected fsu_mkpath, not the chmod to `dir_mode` that src/mkdir.c:141 issues.
- Mkdir.MainTriesAll: is stated for MainFrom, so under -p it covers the corrected fsu_mkpath.
- The backend: does not check that the parent of a path exists or is a directory, and it follows a symlink only when the symlink is the whole path, not an intermediate component. A missing or non-directory parent (ENOENT, ENOTDIR) is therefore not forced by the state; such failures are oracle choices.
- FsuWrite.CopyFrom: the bytes of a short write that land in the file are in `out`, but, as in the source, not in the total.
- Paths are canonicalised by collapsing runs of slashes and dropping a trailing slash. The backend's other name handling (for example `.` and `..`) is not modelled.
- The real backend of the file system, the rump kernel, is not part of this model. `FsModel` stands in for it: its step functions give the effect of each call on a map from canonical names to nodes, and an oracle chooses the failures the state does not force.

## Findings

| source | as written | input that shows it | evidently intended | confidence | as-written member | corrected member |
|---|---|---|---|---|---|---|
| src/fsu_write.c:75 | `return rv != 0;` where `rv` is the number of bytes copied | any non-empty standard input written in full: fsu_write returns its length, and the exit status is 1 | exit with failure only when fsu_write returns -1 | not executed | FsuWrite.CopiedInputExitsFailure | FsuWrite.IntendedStatusReportsOpen |
| src/mkdir.c:219-220 | builddirs is given `mode` and the final chmod is given `dir_mode`, the reverse of the roles the comment at lines 167-171 gives them | `mkdir -p -m 0700 a` with umask 022: the terminal directory ends with 0755 (dir_mode), not 0700 | intermediate directories from `dir_mode` and the terminal directory with `mode` | not executed | Mkdir.MkPathTerminal | Mkdir.MkPathIntendedTerminal |

The as-written definitions (`WriteStatus`, and `MkPathSpec` with the method
`MkPath`) are kept and their behaviour is proved. The rest of the model uses
the corrected definitions: `FsuWriteMain` returns `WriteStatusIntended`, and
`MkdirMain` handles `-p` with `MkPathIntended`.
