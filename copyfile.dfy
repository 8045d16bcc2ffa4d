/**
 * copy_file of the copy utility (src/utils.c, the build without the rump
 * syscall redirection): open the source, decide how to open or create the
 * destination, move the bytes, then restore attributes.
 *
 * The method CopyFile follows the C function call by call and is proved
 * equal to CopyFileSpec, a composition of one specification function per
 * phase; the lemmas state what the source promises about those phases.
 */
module CopyFile {
  import opened Optional
  import opened Modes
  import opened FsModel
  import opened Utils

  /** MAXBSIZE: the size of the static buffer of the chunked copy (64 KiB). */
  const MAXBSIZE: nat := 65536

  /** Files up to 8 MiB are copied through one mapping of the source. */
  const MMAP_LIMIT: int := 8 * 1048576

  /** The oracle's answers for every call copy_file may make. `answer` is
      the first character typed at the overwrite prompt (None at end of
      input); `read(i)` and `write(i)` decide the i-th turn of the chunked
      loop; the mapping itself is not a filesystem call, so whether mmap and
      munmap fail is given directly. */
  datatype CopyFaults = CopyFaults(
    openSrc: Fault, answer: Option<char>, statDest: Fault, openDest: Fault,
    unlink: Fault, reopen: Fault,
    mmapFails: bool, mapWrite: WriteFault, munmapFails: bool,
    read: nat -> Fault, write: nat -> WriteFault,
    setfile: SetfileFaults, fstat: Fault, fchmod: Fault,
    closeSrc: Fault, closeDest: Fault, utimes: Fault)

  /** The prompt's answer keeps the destination unless it starts with y or Y. */
  predicate Declines(answer: Option<char>)
  {
    answer != Some('y') && answer != Some('Y')
  }

  /** Where the destination stands after the open attempts: the stat of an
      existing destination failed, or the descriptor (None: to_fd == -1). */
  datatype DestState = StatFailed(w: World) | Dest(w: World, fd: Option<OpenFile>)

  /** The descriptor an open returns, or None when it failed. */
  function Opened(r: Ret<OpenFile>): (d: DestState)
    ensures d.Dest? && d.w == r.w && (d.fd.Some? <==> r.err.None?)
  {
    Dest(r.w, if r.err.None? then Some(r.val) else None)
  }

  /** The first attempt: a new destination is created with the source mode
      minus setuid/setgid; an existing one is stat'ed (lstat under tolnk)
      and opened for truncation, unless tolnk and it is a symlink. */
  function FirstOpen(w: World, opts: Options, to: Path, st: Stat, dne: bool, f: CopyFaults): DestState
  {
    if dne then Opened(OpenStep(w, to, WriteTruncCreate, StripSetId(st.mode), f.openDest))
    else
      var s := StatStep(w, if Tolnk(opts) then ByLink(to) else ByPath(to), f.statDest);
      if s.err.Some? then StatFailed(s.w)
      else if Tolnk(opts) && IsLnk(s.val.mode) then Dest(s.w, None)
      else Opened(OpenStep(s.w, to, WriteTrunc, 0, f.openDest))
  }

  /** The second attempt, under -f or tolnk only: unlink the name (whatever
      that returns) and create it afresh. */
  function Retry(d: DestState, opts: Options, to: Path, st: Stat, f: CopyFaults): DestState
  {
    if d.StatFailed? || d.fd.Some? || !(opts.fflag || Tolnk(opts)) then d
    else
      var u := UnlinkStep(d.w, to, f.unlink);
      Opened(OpenStep(u.w, to, WriteTruncCreate, StripSetId(st.mode), f.reopen))
  }

  /** The bytes still to read through `fd`. */
  function Remaining(w: World, fd: OpenFile): nat
  {
    if Present(w.nodes, fd.node) && fd.offset < |w.nodes[fd.node].content|
    then |w.nodes[fd.node].content| - fd.offset else 0
  }

  /** The chunked loop from turn `i`: read up to MAXBSIZE bytes, stop at
      end of file (0) or a read error (1), write what was read, stop with 1
      on an error or a short write, else go on. */
  function ChunkLoop(w: World, from: OpenFile, to: OpenFile, f: CopyFaults, i: nat): (r: (World, int))
    requires from.node != to.node
    ensures r.1 == 0 || r.1 == 1
    decreases Remaining(w, from)
  {
    var rd := ReadStep(w, from, MAXBSIZE, f.read(i));
    if rd.err.Some? then (rd.w, 1)
    else if |rd.val.1| == 0 then (rd.w, 0)
    else
      var wr := WriteStep(rd.w, to, rd.val.1, f.write(i));
      if wr.err.Some? || wr.val.1 != |rd.val.1| then (wr.w, 1)
      else ChunkLoop(wr.w, rd.val.0, wr.val.0, f, i + 1)
  }

  /** What the mapping of the source shows: its first `size` bytes. */
  function Mapped(w: World, from: OpenFile, size: int): seq<Byte>
  {
    if Present(w.nodes, from.node) then
      var c := w.nodes[from.node].content;
      c[..if size < 0 then 0 else Min(size, |c|)]
    else []
  }

  /** The transfer: nothing for an empty source; one write of the mapped
      file up to 8 MiB, failing unless it wrote st_size bytes or when munmap
      fails; otherwise, or when mmap fails, the chunked loop. */
  function Transfer(w: World, from: OpenFile, to: OpenFile, st: Stat, f: CopyFaults): (r: (World, int))
    requires from.node != to.node
    ensures r.1 == 0 || r.1 == 1
  {
    if st.size <= 0 then (w, 0)
    else if st.size <= MMAP_LIMIT && !f.mmapFails then
      var wr := WriteStep(w, to, Mapped(w, from, st.size), f.mapWrite);
      (wr.w, if wr.err.Some? || wr.val.1 != st.size || f.munmapFails then 1 else 0)
    else ChunkLoop(w, from, to, f, 0)
  }

  /** The copy keeps setuid/setgid only when nothing is preserved (-p
      off), the destination was new, the source has one of the bits and
      the invoking user owns the source. */
  predicate RetainWanted(opts: Options, st: Stat, dne: bool)
  {
    !opts.pflag && dne && HasSetId(st.mode) && st.uid == opts.myuid
  }

  /** The setuid/setgid retention: fstat the copy and, when its group is
      the source's, fchmod it to st_mode & RETAINBITS & ~umask. The flag
      says whether that failed. */
  function Retain(w: World, opts: Options, to: OpenFile, st: Stat, dne: bool, f: CopyFaults): (r: (World, bool))
  {
    if !RetainWanted(opts, st, dne) then (w, false)
    else
      var s := StatStep(w, ByFd(to), f.fstat);
      if s.err.Some? then (s.w, true)
      else if st.gid == s.val.gid then
        var c := ChmodStep(s.w, ByFd(to), RetainMode(st.mode, opts.myumask), f.fchmod);
        (c.w, c.err.Some?)
      else (s.w, false)
  }

  /** After a transfer that did not fail: setfile on the descriptor under
      -p, the retention, both closes (only the destination's counts), and
      the path-form set_utimes under -p. */
  function Finish(w: World, opts: Options, to: Path, from: OpenFile, tofd: OpenFile, st: Stat, dne: bool, f: CopyFaults): (r: Outcome)
    ensures r.rval == 0 || r.rval == 1
  {
    var sf := if opts.pflag then SetfileSpec(w, to, st, Some(tofd), opts.Nflag, f.setfile)
              else SetfileResult(w, 0, st);
    var rt := Retain(sf.w, opts, tofd, st, dne, f);
    var c1 := CloseStep(rt.0, from, f.closeSrc);
    var c2 := CloseStep(c1.w, tofd, f.closeDest);
    var rval := if sf.rval == 1 || rt.1 || c2.err.Some? then 1 else 0;
    if opts.pflag then
      var u := SetUtimesSpec(c2.w, to, st, f.utimes);
      Outcome(u.w, if u.val == 1 then 1 else rval)
    else Outcome(c2.w, rval)
  }

  /** Once both descriptors are open: transfer, then either close both and
      return 1, or finish. */
  function Body(w: World, opts: Options, to: Path, from: OpenFile, tofd: OpenFile, st: Stat, dne: bool, f: CopyFaults): (r: Outcome)
    requires from.node != tofd.node
  {
    var t := Transfer(w, from, tofd, st, f);
    if t.1 == 1 then
      Outcome(CloseStep(CloseStep(t.0, from, f.closeSrc).w, tofd, f.closeDest).w, 1)
    else Finish(t.0, opts, to, from, tofd, st, dne, f)
  }

  /** The source and the destination are different objects: the source's
      node is neither the destination name nor what that name leads to. */
  predicate Distinct(w: World, src: Path, to: Path)
  {
    var q := Resolve(w.nodes, src, MAXSYMLINKS);
    q.Some? && q.value != Canon(to) && Resolve(w.nodes, to, MAXSYMLINKS) != q
  }

  /** copy_file as a function of the world. */
  function CopyFileSpec(w: World, opts: Options, src: Path, to: Path, st: Stat, dne: bool, f: CopyFaults): (r: Outcome)
    requires Distinct(w, src, to)
    ensures r.rval == 0 || r.rval == 1
  {
    var o := OpenStep(w, src, ReadOnly, 0, f.openSrc);
    if o.err.Some? then Outcome(o.w, 1)
    else if !dne && opts.iflag && Declines(f.answer) then
      Outcome(CloseStep(o.w, o.val, f.closeSrc).w, 0)
    else
      var d := Retry(FirstOpen(o.w, opts, to, st, dne, f), opts, to, st, f);
      if d.StatFailed? then Outcome(d.w, 1)
      else if d.fd.None? then Outcome(CloseStep(d.w, o.val, f.closeSrc).w, 1)
      else
        DestNotSource(w, o.w, opts, src, to, st, dne, f);
        Body(d.w, opts, to, o.val, d.fd.value, st, dne, f)
  }

  /** The destination descriptor never names the source's node. */
  lemma DestNotSource(w: World, w1: World, opts: Options, src: Path, to: Path, st: Stat, dne: bool, f: CopyFaults)
    requires Distinct(w, src, to) && w1.nodes == w.nodes
    ensures var d := Retry(FirstOpen(w1, opts, to, st, dne, f), opts, to, st, f);
      d.Dest? && d.fd.Some? ==> d.fd.value.node != Resolve(w.nodes, src, MAXSYMLINKS).value
  {
  }

  /** copy_file: returns 0 when the entry was copied (or the user declined
      to overwrite it) and 1 when something failed. */
  method CopyFile(fs: FileSystem, opts: Options, src: Path, to: Path, st: Stat, dne: bool, f: CopyFaults)
    returns (rval: int)
    requires Distinct(fs.State(), src, to)
    modifies fs
    ensures fs.State() == CopyFileSpec(old(fs.State()), opts, src, to, st, dne, f).w
    ensures rval == CopyFileSpec(old(fs.State()), opts, src, to, st, dne, f).rval
  {
    ghost var w0 := fs.State();
    var err, from := fs.Open(src, ReadOnly, 0, f.openSrc);
    if err.Some? {
      return 1;
    }
    ghost var w1 := fs.State();
    if !dne && opts.iflag {
      if f.answer != Some('y') && f.answer != Some('Y') {
        err := fs.Close(from, f.closeSrc);
        return 0;
      }
    }
    var statFailed, tofd := OpenDest(fs, opts, to, st, dne, f);
    if statFailed {
      return 1;
    }
    if tofd.None? {
      err := fs.Close(from, f.closeSrc);
      return 1;
    }
    DestNotSource(w0, w1, opts, src, to, st, dne, f);
    rval := CopyBody(fs, opts, to, from, tofd.value, st, dne, f);
  }

  /** The part of copy_file after both opens: transfer, then either close
      both descriptors and fail, or finish. */
  method CopyBody(fs: FileSystem, opts: Options, to: Path, from: OpenFile, toFd: OpenFile, st: Stat, dne: bool, f: CopyFaults)
    returns (rval: int)
    requires from.node != toFd.node
    modifies fs
    ensures Outcome(fs.State(), rval) == Body(old(fs.State()), opts, to, from, toFd, st, dne, f)
  {
    rval := TransferData(fs, from, toFd, st, f);
    if rval == 1 {
      var err := fs.Close(from, f.closeSrc);
      err := fs.Close(toFd, f.closeDest);
      return 1;
    }
    rval := FinishCopy(fs, opts, to, from, toFd, st, dne, f);
  }

  /** The destination's open attempts of copy_file (after the prompt). */
  method OpenDest(fs: FileSystem, opts: Options, to: Path, st: Stat, dne: bool, f: CopyFaults)
    returns (statFailed: bool, tofd: Option<OpenFile>)
    modifies fs
    ensures var d := Retry(FirstOpen(old(fs.State()), opts, to, st, dne, f), opts, to, st, f);
      && fs.State() == d.w && (statFailed <==> d.StatFailed?) && (!statFailed ==> tofd == d.fd)
  {
    ghost var w1 := fs.State();
    var tolnk := (opts.Rflag && !(opts.Lflag || opts.Hflag)) || opts.Pflag;
    var err;
    statFailed, tofd := false, None;
    if !dne {
      var sb;
      err, sb := fs.Stat(if tolnk then ByLink(to) else ByPath(to), f.statDest);
      if err.Some? {
        return true, None;
      }
      if !(tolnk && IsLnk(sb.mode)) {
        var fd;
        err, fd := fs.Open(to, WriteTrunc, 0, f.openDest);
        if err.None? {
          tofd := Some(fd);
        }
      }
    } else {
      var fd;
      err, fd := fs.Open(to, WriteTruncCreate, StripSetId(st.mode), f.openDest);
      if err.None? {
        tofd := Some(fd);
      }
    }
    assert Dest(fs.State(), tofd) == FirstOpen(w1, opts, to, st, dne, f);
    if tofd.None? && (opts.fflag || tolnk) {
      err := fs.Unlink(to, f.unlink);
      var fd;
      err, fd := fs.Open(to, WriteTruncCreate, StripSetId(st.mode), f.reopen);
      if err.None? {
        tofd := Some(fd);
      }
    }
  }

  /** The byte transfer of copy_file. */
  method TransferData(fs: FileSystem, from: OpenFile, toFd: OpenFile, st: Stat, f: CopyFaults) returns (rval: int)
    requires from.node != toFd.node
    modifies fs
    ensures (fs.State(), rval) == Transfer(old(fs.State()), from, toFd, st, f)
  {
    rval := 0;
    if st.size > 0 {
      if st.size <= MMAP_LIMIT && !f.mmapFails {
        var p := Mapped(fs.State(), from, st.size);
        var e, out, n := fs.Write(toFd, p, f.mapWrite);
        if e.Some? || n != st.size {
          rval := 1;
        }
        if f.munmapFails {
          rval := 1;
        }
      } else {
        rval := CopyChunks(fs, from, toFd, f);
      }
    }
  }

  /** What copy_file does after a transfer that did not fail. */
  method FinishCopy(fs: FileSystem, opts: Options, to: Path, from: OpenFile, toFd: OpenFile, st: Stat, dne: bool, f: CopyFaults)
    returns (rval: int)
    modifies fs
    ensures Outcome(fs.State(), rval) == Finish(old(fs.State()), opts, to, from, toFd, st, dne, f)
  {
    rval := 0;
    if opts.pflag {
      var r, masked := Setfile(fs, to, st, Some(toFd), opts.Nflag, f.setfile);
      if r == 1 {
        rval := 1;
      }
    }
    var failed := RetainSetId(fs, opts, toFd, st, dne, f);
    if failed {
      rval := 1;
    }
    var err := fs.Close(from, f.closeSrc);
    err := fs.Close(toFd, f.closeDest);
    if err.Some? {
      rval := 1;
    }
    if opts.pflag {
      var u := SetUtimes(fs, to, st, f.utimes);
      if u == 1 {
        rval := 1;
      }
    }
  }

  /** The setuid/setgid retention of copy_file. */
  method RetainSetId(fs: FileSystem, opts: Options, toFd: OpenFile, st: Stat, dne: bool, f: CopyFaults)
    returns (failed: bool)
    modifies fs
    ensures (fs.State(), failed) == Retain(old(fs.State()), opts, toFd, st, dne, f)
  {
    failed := false;
    if !opts.pflag && dne && HasSetId(st.mode) && st.uid == opts.myuid {
      var e, toStat := fs.Stat(ByFd(toFd), f.fstat);
      if e.Some? {
        failed := true;
      } else if st.gid == toStat.gid {
        e := fs.Chmod(ByFd(toFd), RetainMode(st.mode, opts.myumask), f.fchmod);
        failed := e.Some?;
      }
    }
  }

  /** The chunked loop of copy_file: read up to MAXBSIZE bytes into the
      buffer and write them out until end of file or an error. */
  method CopyChunks(fs: FileSystem, from: OpenFile, to: OpenFile, f: CopyFaults) returns (rval: int)
    requires from.node != to.node
    modifies fs
    ensures (fs.State(), rval) == ChunkLoop(old(fs.State()), from, to, f, 0)
  {
    rval := 0;
    var i := 0;
    var src, dst := from, to;
    var rcount: int;
    while true
      invariant src.node == from.node && dst.node == to.node
      invariant ChunkLoop(fs.State(), src, dst, f, i) == ChunkLoop(old(fs.State()), from, to, f, 0)
      decreases Remaining(fs.State(), src)
    {
      var e, src', buf := fs.Read(src, MAXBSIZE, f.read(i));
      rcount := if e.Some? then -1 else |buf|;
      if rcount <= 0 {
        break;
      }
      var e2, dst', wcount := fs.Write(dst, buf, f.write(i));
      if e2.Some? || wcount != rcount {
        rval := 1;
        break;
      }
      src, dst, i := src', dst', i + 1;
    }
    if rcount < 0 {
      rval := 1;
    }
  }

  // ---------------------------------------------------------------------
  // Properties of the transfer

  /** The calls a transfer may add to the log: reads of MAXBSIZE bytes of
      the source and writes to the destination. */
  predicate TransferCalls(calls: seq<Call>, from: OpenFile, to: OpenFile)
  {
    forall c :: c in calls ==> c == Read(from.node, MAXBSIZE) || (c.Write? && c.node == to.node)
  }

  /** The destination holds exactly the source's bytes before the read
      offset and is written at that same offset. */
  predicate InStep(w: World, from: OpenFile, to: OpenFile)
  {
    && from.node != to.node && Present(w.nodes, from.node) && Present(w.nodes, to.node)
    && !to.append && to.offset == from.offset
    && from.offset <= |w.nodes[from.node].content|
    && w.nodes[to.node].content == w.nodes[from.node].content[..from.offset]
  }

  /** One complete turn of the chunked loop keeps the copy in step and
      touches only the destination; a read of nothing in step means the
      destination already equals the source. */
  lemma ChunkTurn(w: World, from: OpenFile, to: OpenFile, f: CopyFaults, i: nat)
    requires InStep(w, from, to)
    ensures var rd := ReadStep(w, from, MAXBSIZE, f.read(i));
      rd.err.None? && |rd.val.1| == 0 ==> w.nodes[to.node].content == w.nodes[from.node].content
    ensures var rd := ReadStep(w, from, MAXBSIZE, f.read(i));
      var wr := WriteStep(rd.w, to, rd.val.1, f.write(i));
      rd.err.None? && |rd.val.1| > 0 && wr.err.None? && wr.val.1 == |rd.val.1| ==>
        && InStep(wr.w, rd.val.0, wr.val.0)
        && rd.val.0.node == from.node && wr.val.0.node == to.node
        && wr.w.nodes[from.node] == w.nodes[from.node]
        && wr.w.nodes == w.nodes[to.node := wr.w.nodes[to.node]]
        && Remaining(wr.w, rd.val.0) < Remaining(w, from)
  {
    var C := w.nodes[from.node].content;
    var rd := ReadStep(w, from, MAXBSIZE, f.read(i));
    if rd.err.None? {
      var hi := rd.val.0.offset;
      assert rd.val.1 == C[from.offset..hi];
      if |rd.val.1| == 0 {
        assert C[..from.offset] == C;
      } else {
        var wr := WriteStep(rd.w, to, rd.val.1, f.write(i));
        if wr.err.None? && wr.val.1 == |rd.val.1| {
          assert wr.w.nodes[to.node].content == C[..hi] by {
            assert C[..from.offset] + C[from.offset..hi] == C[..hi];
          }
        }
      }
    }
  }

  /** The chunked loop started in step ends, when it returns 0, with the
      destination equal to the source. */
  lemma {:induction false} ChunkLoopCopies(w: World, from: OpenFile, to: OpenFile, f: CopyFaults, i: nat)
    requires InStep(w, from, to)
    ensures var r := ChunkLoop(w, from, to, f, i);
      && Present(r.0.nodes, to.node)
      && (r.1 == 0 ==> r.0.nodes[to.node].content == w.nodes[from.node].content)
    decreases Remaining(w, from)
  {
    ChunkTurn(w, from, to, f, i);
    var rd := ReadStep(w, from, MAXBSIZE, f.read(i));
    var wr := WriteStep(rd.w, to, rd.val.1, f.write(i));
    if rd.err.None? && |rd.val.1| > 0 && wr.err.None? && wr.val.1 == |rd.val.1| {
      ChunkLoopCopies(wr.w, rd.val.0, wr.val.0, f, i + 1);
    }
  }

  /** The chunked loop only appends to the log, and only MAXBSIZE reads of
      the source and writes to the destination. */
  lemma {:induction false} ChunkLoopCalls(w: World, from: OpenFile, to: OpenFile, f: CopyFaults, i: nat)
    requires from.node != to.node
    ensures var r := ChunkLoop(w, from, to, f, i);
      && |w.log| <= |r.0.log| && r.0.log[..|w.log|] == w.log
      && TransferCalls(r.0.log[|w.log|..], from, to)
    decreases Remaining(w, from)
  {
    var r := ChunkLoop(w, from, to, f, i);
    var rd := ReadStep(w, from, MAXBSIZE, f.read(i));
    var wr := WriteStep(rd.w, to, rd.val.1, f.write(i));
    var turn := [Read(from.node, MAXBSIZE), Write(to.node, |rd.val.1|)];
    if rd.err.Some? || |rd.val.1| == 0 {
      assert r.0.log[|w.log|..] == [Read(from.node, MAXBSIZE)];
    } else if wr.err.Some? || wr.val.1 != |rd.val.1| {
      assert r.0.log[|w.log|..] == turn;
    } else {
      ChunkLoopCalls(wr.w, rd.val.0, wr.val.0, f, i + 1);
      assert TransferCalls(turn, from, to);
      CallsExtend(w.log, turn, wr.w.log, r.0.log, from, to);
    }
  }

  /** A log that extends `a + turn` with transfer calls extends `a` with
      transfer calls, when `turn` holds only transfer calls. */
  lemma CallsExtend(a: seq<Call>, turn: seq<Call>, b: seq<Call>, c: seq<Call>, from: OpenFile, to: OpenFile)
    requires b == a + turn && TransferCalls(turn, from, to)
    requires |b| <= |c| && c[..|b|] == b && TransferCalls(c[|b|..], from, to)
    ensures |a| <= |c| && c[..|a|] == a && TransferCalls(c[|a|..], from, to)
  {
    assert c[..|a|] == b[..|a|];
    assert c[|a|..] == turn + c[|b|..];
  }

  /** The transfer adds only transfer calls to the log, and none at all for
      an empty source; it changes no node but the destination. */
  lemma TransferEffects(w: World, from: OpenFile, to: OpenFile, st: Stat, f: CopyFaults)
    requires from.node != to.node
    ensures var t := Transfer(w, from, to, st, f);
      && |w.log| <= |t.0.log| && t.0.log[..|w.log|] == w.log
      && TransferCalls(t.0.log[|w.log|..], from, to)
      && (st.size <= 0 ==> t.0.log == w.log && t.1 == 0)
      && t.0.env == w.env
      && (Present(w.nodes, to.node) ==> Present(t.0.nodes, to.node) && t.0.nodes == w.nodes[to.node := t.0.nodes[to.node]])
      && (!Present(w.nodes, to.node) ==> t.0.nodes == w.nodes)
  {
    if st.size > 0 {
      if st.size <= MMAP_LIMIT && !f.mmapFails {
        var t := Transfer(w, from, to, st, f);
        assert t.0.log[|w.log|..] == [Write(to.node, |Mapped(w, from, st.size)|)];
      } else {
        ChunkLoopCalls(w, from, to, f, 0);
        ChunkLoopNodes(w, from, to, f, 0);
      }
    }
  }

  /** Whatever it returns, the chunked loop changes no node but the destination. */
  lemma {:induction false} ChunkLoopNodes(w: World, from: OpenFile, to: OpenFile, f: CopyFaults, i: nat)
    requires from.node != to.node
    ensures var r := ChunkLoop(w, from, to, f, i);
      && r.0.env == w.env
      && (Present(w.nodes, to.node) ==> Present(r.0.nodes, to.node) && r.0.nodes == w.nodes[to.node := r.0.nodes[to.node]])
      && (!Present(w.nodes, to.node) ==> r.0.nodes == w.nodes)
    decreases Remaining(w, from)
  {
    var rd := ReadStep(w, from, MAXBSIZE, f.read(i));
    var wr := WriteStep(rd.w, to, rd.val.1, f.write(i));
    if rd.err.None? && |rd.val.1| > 0 && wr.err.None? && wr.val.1 == |rd.val.1| {
      assert Remaining(wr.w, rd.val.0) < Remaining(w, from);
      ChunkLoopNodes(wr.w, rd.val.0, wr.val.0, f, i + 1);
    }
  }

  /** Turn i of the chunked loop fails: its read fails, or it reads some
      bytes and their write fails or is short. */
  predicate TurnFails(w: World, from: OpenFile, to: OpenFile, f: CopyFaults, i: nat)
  {
    var rd := ReadStep(w, from, MAXBSIZE, f.read(i));
    rd.err.Some? ||
      (|rd.val.1| > 0 &&
        var wr := WriteStep(rd.w, to, rd.val.1, f.write(i));
        wr.err.Some? || wr.val.1 != |rd.val.1|)
  }

  /** Where turn i of the chunked loop leaves the world and both offsets
      when it completes (a non-empty chunk read and written in full);
      None when it ends the loop. */
  function TurnOn(w: World, from: OpenFile, to: OpenFile, f: CopyFaults, i: nat): Option<(World, OpenFile, OpenFile)>
  {
    var rd := ReadStep(w, from, MAXBSIZE, f.read(i));
    if rd.err.Some? || |rd.val.1| == 0 then None
    else
      var wr := WriteStep(rd.w, to, rd.val.1, f.write(i));
      if wr.err.Some? || wr.val.1 != |rd.val.1| then None
      else Some((wr.w, rd.val.0, wr.val.0))
  }

  /** The world and offsets after j complete turns from turn i; None when
      one of those turns does not complete. */
  function AfterTurns(w: World, from: OpenFile, to: OpenFile, f: CopyFaults, i: nat, j: nat): Option<(World, OpenFile, OpenFile)>
    decreases j
  {
    if j == 0 then Some((w, from, to))
    else
      match TurnOn(w, from, to, f, i)
      case None => None
      case Some(s) => AfterTurns(s.0, s.1, s.2, f, i + 1, j - 1)
  }

  /** Some turn from i on fails after the turns before it completed. */
  ghost predicate ChunkFails(w: World, from: OpenFile, to: OpenFile, f: CopyFaults, i: nat)
  {
    exists j: nat :: var a := AfterTurns(w, from, to, f, i, j);
      a.Some? && TurnFails(a.value.0, a.value.1, a.value.2, f, i + j)
  }

  /** The chunked loop returns 1 exactly when one of its turns fails after
      the earlier turns completed: a read error (also one at end of file),
      a failed write or a short write. */
  lemma {:induction false} ChunkLoopFails(w: World, from: OpenFile, to: OpenFile, f: CopyFaults, i: nat)
    requires from.node != to.node
    ensures ChunkLoop(w, from, to, f, i).1 == 1 <==> ChunkFails(w, from, to, f, i)
    decreases Remaining(w, from)
  {
    if TurnFails(w, from, to, f, i) {
      assert AfterTurns(w, from, to, f, i, 0) == Some((w, from, to));
    } else if TurnOn(w, from, to, f, i).None? {
      TurnEnds(w, from, to, f, i);
    } else {
      var s := TurnOn(w, from, to, f, i).value;
      TurnGoesOn(w, from, to, f, i, s);
      FailsAhead(w, from, to, f, i, s);
      FailsPast(w, from, to, f, i, s);
      ChunkLoopFails(s.0, s.1, s.2, f, i + 1);
    }
  }

  /** A turn that neither fails nor completes reads end of file: the loop
      returns 0 and no later turn is reached. */
  lemma TurnEnds(w: World, from: OpenFile, to: OpenFile, f: CopyFaults, i: nat)
    requires from.node != to.node
    requires !TurnFails(w, from, to, f, i) && TurnOn(w, from, to, f, i).None?
    ensures ChunkLoop(w, from, to, f, i).1 == 0 && !ChunkFails(w, from, to, f, i)
  {
    forall j: nat | AfterTurns(w, from, to, f, i, j).Some?
      ensures j == 0
    {
    }
  }

  /** After a complete turn the loop goes on from the state it leaves,
      with less of the source left to read. */
  lemma TurnGoesOn(w: World, from: OpenFile, to: OpenFile, f: CopyFaults, i: nat, s: (World, OpenFile, OpenFile))
    requires from.node != to.node
    requires !TurnFails(w, from, to, f, i) && TurnOn(w, from, to, f, i) == Some(s)
    ensures s.1.node != s.2.node && Remaining(s.0, s.1) < Remaining(w, from)
    ensures ChunkLoop(w, from, to, f, i) == ChunkLoop(s.0, s.1, s.2, f, i + 1)
  {
  }

  /** A failing turn ahead of the state a complete turn leaves is ahead of
      that turn too. */
  lemma FailsAhead(w: World, from: OpenFile, to: OpenFile, f: CopyFaults, i: nat, s: (World, OpenFile, OpenFile))
    requires TurnOn(w, from, to, f, i) == Some(s)
    ensures ChunkFails(s.0, s.1, s.2, f, i + 1) ==> ChunkFails(w, from, to, f, i)
  {
    if ChunkFails(s.0, s.1, s.2, f, i + 1) {
      var j: nat :| var a := AfterTurns(s.0, s.1, s.2, f, i + 1, j);
        a.Some? && TurnFails(a.value.0, a.value.1, a.value.2, f, i + 1 + j);
      assert AfterTurns(w, from, to, f, i, j + 1) == AfterTurns(s.0, s.1, s.2, f, i + 1, j);
    }
  }

  /** A failing turn ahead of a complete turn lies ahead of the state it
      leaves. */
  lemma FailsPast(w: World, from: OpenFile, to: OpenFile, f: CopyFaults, i: nat, s: (World, OpenFile, OpenFile))
    requires !TurnFails(w, from, to, f, i) && TurnOn(w, from, to, f, i) == Some(s)
    ensures ChunkFails(w, from, to, f, i) ==> ChunkFails(s.0, s.1, s.2, f, i + 1)
  {
    if ChunkFails(w, from, to, f, i) {
      var j: nat :| var a := AfterTurns(w, from, to, f, i, j);
        a.Some? && TurnFails(a.value.0, a.value.1, a.value.2, f, i + j);
      assert j != 0;
      assert AfterTurns(w, from, to, f, i, j) == AfterTurns(s.0, s.1, s.2, f, i + 1, j - 1);
    }
  }

  /** The transfer returns 1 exactly when the source is not empty and either
      the mapped copy fails (its write fails or writes a count other than
      st_size, or munmap fails) or, past the mapping limit or when mmap
      fails, the chunked loop fails. */
  lemma TransferFails(w: World, from: OpenFile, to: OpenFile, st: Stat, f: CopyFaults)
    requires from.node != to.node
    ensures Transfer(w, from, to, st, f).1 == 1 <==>
      && st.size > 0
      && if st.size <= MMAP_LIMIT && !f.mmapFails then
           var wr := WriteStep(w, to, Mapped(w, from, st.size), f.mapWrite);
           wr.err.Some? || wr.val.1 != st.size || f.munmapFails
         else ChunkFails(w, from, to, f, 0)
  {
    if st.size > 0 && !(st.size <= MMAP_LIMIT && !f.mmapFails) {
      ChunkLoopFails(w, from, to, f, 0);
    }
  }

  /** A transfer from the start of the source into an emptied destination,
      told the source's true size, leaves the destination equal to the
      source when it returns 0. */
  lemma TransferCopies(w: World, from: OpenFile, to: OpenFile, st: Stat, f: CopyFaults)
    requires InStep(w, from, to) && from.offset == 0
    requires st.size == |w.nodes[from.node].content|
    ensures var t := Transfer(w, from, to, st, f);
      && Present(t.0.nodes, to.node) && Present(t.0.nodes, from.node)
      && t.0.nodes[from.node] == w.nodes[from.node]
      && (t.1 == 0 ==> t.0.nodes[to.node].content == w.nodes[from.node].content)
  {
    var C := w.nodes[from.node].content;
    if st.size > 0 {
      if st.size <= MMAP_LIMIT && !f.mmapFails {
        assert Mapped(w, from, st.size) == C;
        assert Splice([], 0, C) == C;
      } else {
        ChunkLoopCopies(w, from, to, f, 0);
        ChunkLoopNodes(w, from, to, f, 0);
      }
    }
  }

  // ---------------------------------------------------------------------
  // Properties of the phases after the transfer

  /** The retention issues its fchmod exactly when it is wanted, the fstat
      succeeded and the copy's group is the source's; that fchmod gives the
      copy the source's 07777 bits minus the umask. It reports a failure
      exactly when it was wanted and the fstat or that fchmod failed. */
  lemma RetainEffect(w: World, opts: Options, to: OpenFile, st: Stat, dne: bool, f: CopyFaults)
    requires Present(w.nodes, to.node)
    ensures var r := Retain(w, opts, to, st, dne, f);
      var chmodded := RetainWanted(opts, st, dne) && f.fstat.None? && w.nodes[to.node].gid == st.gid;
      && (!RetainWanted(opts, st, dne) ==> r == (w, false))
      && (chmodded <==> r.0.log == w.log + [StatCall(ByFd(to)), Chmod(ByFd(to), RetainMode(st.mode, opts.myumask))])
      && (r.1 <==> RetainWanted(opts, st, dne) && (f.fstat.Some? || (chmodded && f.fchmod.Some?)))
      && (chmodded && f.fchmod.None? ==>
            && Present(r.0.nodes, to.node)
            && r.0.nodes == w.nodes[to.node := w.nodes[to.node].(perm := r.0.nodes[to.node].perm)]
            && Bits(r.0.nodes[to.node].perm) == Bits(st.mode) & ALLPERMS & !Bits(opts.myumask))
      && (!(chmodded && f.fchmod.None?) ==> r.0.nodes == w.nodes)
  {
    RetainPermBits(st.mode, opts.myumask);
  }

  /** The phases after a successful transfer change attributes only. */
  lemma FinishKeepsContents(w: World, opts: Options, to: Path, from: OpenFile, tofd: OpenFile, st: Stat, dne: bool, f: CopyFaults)
    ensures ContentsKept(w, Finish(w, opts, to, from, tofd, st, dne, f).w)
  {
    var sf := if opts.pflag then SetfileSpec(w, to, st, Some(tofd), opts.Nflag, f.setfile)
              else SetfileResult(w, 0, st);
    if opts.pflag {
      SetfileKeepsContents(w, to, st, Some(tofd), opts.Nflag, f.setfile);
    }
    var rt := Retain(sf.w, opts, tofd, st, dne, f);
    if RetainWanted(opts, st, dne) {
      var sb := StatStep(sf.w, ByFd(tofd), f.fstat);
      AttrKeepsContents(sb.w, ByFd(tofd), 0, 0, RetainMode(st.mode, opts.myumask), 0, Timeval(0, 0), Timeval(0, 0), f.fchmod);
    }
    var c1 := CloseStep(rt.0, from, f.closeSrc);
    var c2 := CloseStep(c1.w, tofd, f.closeDest);
    if opts.pflag {
      AttrKeepsContents(c2.w, ByLink(to), 0, 0, 0, 0, ToTimeval(st.atime), ToTimeval(st.mtime), f.utimes);
    }
  }

  /** A failed transfer is followed by the two closes and nothing else: no
      setfile call and no retention; copy_file then returns 1. */
  lemma BodyFailure(w: World, opts: Options, to: Path, from: OpenFile, tofd: OpenFile, st: Stat, dne: bool, f: CopyFaults)
    requires from.node != tofd.node
    ensures var t := Transfer(w, from, tofd, st, f);
      var r := Body(w, opts, to, from, tofd, st, dne, f);
      var n := |r.w.log|;
      t.1 == 1 ==>
        && r.rval == 1 && r.w.nodes == t.0.nodes
        && |w.log| + 2 <= n && r.w.log[..|w.log|] == w.log
        && r.w.log[n - 2..] == [Close(from.node), Close(tofd.node)]
        && TransferCalls(r.w.log[|w.log|..n - 2], from, tofd)
  {
    var t := Transfer(w, from, tofd, st, f);
    TransferEffects(w, from, tofd, st, f);
    var r := Body(w, opts, to, from, tofd, st, dne, f);
    if t.1 == 1 {
      assert r.w.log == t.0.log + [Close(from.node), Close(tofd.node)];
      assert r.w.log[|w.log|..|r.w.log| - 2] == t.0.log[|w.log|..];
    }
  }

  /** After both opens in step, a copy that returns 0 leaves the
      destination holding exactly the source's bytes, and the source as it
      was. */
  lemma BodyCopies(w: World, opts: Options, to: Path, from: OpenFile, tofd: OpenFile, st: Stat, dne: bool, f: CopyFaults)
    requires InStep(w, from, tofd) && from.offset == 0
    requires st.size == |w.nodes[from.node].content|
    ensures var r := Body(w, opts, to, from, tofd, st, dne, f);
      r.rval == 0 ==>
        && from.node in r.w.nodes && tofd.node in r.w.nodes
        && r.w.nodes[tofd.node].content == w.nodes[from.node].content
        && r.w.nodes[from.node].content == w.nodes[from.node].content
  {
    var t := Transfer(w, from, tofd, st, f);
    TransferCopies(w, from, tofd, st, f);
    if t.1 == 0 {
      FinishKeepsContents(t.0, opts, to, from, tofd, st, dne, f);
    }
  }

  // ---------------------------------------------------------------------
  // Properties of the opens

  /** When the source cannot be opened copy_file returns 1 having issued
      only that open. */
  lemma SourceOpenFails(w: World, opts: Options, src: Path, to: Path, st: Stat, dne: bool, f: CopyFaults)
    requires Distinct(w, src, to)
    ensures var q := Resolve(w.nodes, src, MAXSYMLINKS).value;
      !Present(w.nodes, q) || f.openSrc.Some? ==>
        CopyFileSpec(w, opts, src, to, st, dne, f) == Outcome(Logged(w, Open(src, ReadOnly, 0)), 1)
  {
  }

  /** Declining the overwrite prompt for an existing destination returns 0
      (1 only when the source could not even be opened) and leaves every
      node as it was: the only calls are the source's open and close. */
  lemma DeclinedKeepsDest(w: World, opts: Options, src: Path, to: Path, st: Stat, dne: bool, f: CopyFaults)
    requires Distinct(w, src, to) && !dne && opts.iflag && Declines(f.answer)
    ensures var q := Resolve(w.nodes, src, MAXSYMLINKS).value;
      var r := CopyFileSpec(w, opts, src, to, st, dne, f);
      && r.w.nodes == w.nodes
      && (r.rval == 0 <==> Present(w.nodes, q) && f.openSrc.None?)
      && r.w.log == w.log + [Open(src, ReadOnly, 0)] + (if r.rval == 0 then [Close(q)] else [])
  {
  }

  /** A new destination is created with the source's mode minus setuid and
      setgid: the file made has neither bit and nothing the creation mask
      forbids. */
  lemma NewDestMode(w: World, opts: Options, to: Path, st: Stat, f: CopyFaults)
    ensures var d := FirstOpen(w, opts, to, st, true, f);
      && d.Dest? && d.w.log == w.log + [Open(to, WriteTruncCreate, StripSetId(st.mode))]
      && (d.fd.Some? && !Present(w.nodes, d.fd.value.node) ==>
            var n := d.w.nodes[d.fd.value.node];
            && n == NewNode(w.env, Regular, Created(StripSetId(st.mode), w.env.cmask))
            && !HasSetId(n.perm) && Bits(n.perm) & Bits(w.env.cmask) == 0
            && Bits(n.perm) & !SETID == Bits(st.mode) & ALLPERMS & !SETID & !Bits(w.env.cmask))
  {
    CreatedStrippedBits(st.mode, w.env.cmask);
  }

  /** The destination is opened at most twice: the second attempt, an
      unlink and a create with the stripped mode, happens only when the
      first left no descriptor and -f or tolnk is in force. */
  lemma RetryOnce(d: DestState, opts: Options, to: Path, st: Stat, f: CopyFaults)
    ensures var r := Retry(d, opts, to, st, f);
      var retried := d.Dest? && d.fd.None? && (opts.fflag || Tolnk(opts));
      && (!retried ==> r == d)
      && (retried ==> r.Dest? && r.w.log == d.w.log + [Unlink(to), Open(to, WriteTruncCreate, StripSetId(st.mode))])
  {
  }

  /** Without a destination descriptor copy_file closes the source and
      returns 1; after a failed stat of an existing destination it returns
      1 at once. Either way no data moves and no attribute is set. */
  lemma NoDestFails(w: World, opts: Options, src: Path, to: Path, st: Stat, dne: bool, f: CopyFaults)
    requires Distinct(w, src, to)
    ensures var o := OpenStep(w, src, ReadOnly, 0, f.openSrc);
      var d := Retry(FirstOpen(o.w, opts, to, st, dne, f), opts, to, st, f);
      var r := CopyFileSpec(w, opts, src, to, st, dne, f);
      o.err.None? && !(!dne && opts.iflag && Declines(f.answer)) && (d.StatFailed? || d.fd.None?) ==>
        && r.rval == 1 && r.w.nodes == d.w.nodes
        && r.w.log == d.w.log + (if d.StatFailed? then [] else [Close(o.val.node)])
  {
  }

  /** The destination's opens leave every other existing node as it was,
      and a descriptor they return is fresh, empty and not in append mode. */
  lemma OpensKeep(w: World, opts: Options, to: Path, st: Stat, dne: bool, f: CopyFaults, k: Path)
    requires Present(w.nodes, k) && k != Canon(to)
    ensures var d := Retry(FirstOpen(w, opts, to, st, dne, f), opts, to, st, f);
      && Present(d.w.nodes, k)
      && (d.StatFailed? || d.fd.None? || d.fd.value.node != k ==> d.w.nodes[k] == w.nodes[k])
      && FreshDest(d)
  {
    var d0 := FirstOpen(w, opts, to, st, dne, f);
    FirstOpenKeeps(w, opts, to, st, dne, f, k);
    RetryKeeps(d0, opts, to, st, f, k);
  }

  /** A successful open of the destination: a fresh, empty, non-append descriptor. */
  predicate FreshDest(d: DestState)
  {
    d.Dest? && d.fd.Some? ==>
      && Present(d.w.nodes, d.fd.value.node) && d.fd.value.offset == 0 && !d.fd.value.append
      && d.w.nodes[d.fd.value.node].content == []
  }

  lemma FirstOpenKeeps(w: World, opts: Options, to: Path, st: Stat, dne: bool, f: CopyFaults, k: Path)
    requires Present(w.nodes, k)
    ensures var d := FirstOpen(w, opts, to, st, dne, f);
      && Present(d.w.nodes, k) && FreshDest(d)
      && (d.StatFailed? || d.fd.None? || d.fd.value.node != k ==> d.w.nodes[k] == w.nodes[k])
  {
  }

  lemma RetryKeeps(d: DestState, opts: Options, to: Path, st: Stat, f: CopyFaults, k: Path)
    requires Present(d.w.nodes, k) && k != Canon(to) && FreshDest(d)
    ensures var r := Retry(d, opts, to, st, f);
      && Present(r.w.nodes, k) && FreshDest(r)
      && (d.StatFailed? || d.fd.None? ==> r.StatFailed? || r.fd.None? || r.fd.value.node != k ==> r.w.nodes[k] == d.w.nodes[k])
      && (d.Dest? && d.fd.Some? ==> r == d)
  {
    if d.Dest? && d.fd.None? && (opts.fflag || Tolnk(opts)) {
      var u := UnlinkStep(d.w, to, f.unlink);
      assert Present(u.w.nodes, k) && u.w.nodes[k] == d.w.nodes[k];
    }
  }

  /** copy_file's promise: when it returns 0 after writing the destination
      (the prompt, if any, accepted), the destination it opened holds
      exactly the source's bytes and the source is unchanged. */
  lemma CopyFileCopies(w: World, opts: Options, src: Path, to: Path, st: Stat, dne: bool, f: CopyFaults)
    requires Distinct(w, src, to)
    requires Present(w.nodes, Resolve(w.nodes, src, MAXSYMLINKS).value)
    requires st.size == |w.nodes[Resolve(w.nodes, src, MAXSYMLINKS).value].content|
    ensures var q := Resolve(w.nodes, src, MAXSYMLINKS).value;
      var o := OpenStep(w, src, ReadOnly, 0, f.openSrc);
      var d := Retry(FirstOpen(o.w, opts, to, st, dne, f), opts, to, st, f);
      var r := CopyFileSpec(w, opts, src, to, st, dne, f);
      r.rval == 0 && !(!dne && opts.iflag && Declines(f.answer)) ==>
        && d.Dest? && d.fd.Some?
        && d.fd.value.node in r.w.nodes && q in r.w.nodes
        && r.w.nodes[d.fd.value.node].content == w.nodes[q].content
        && r.w.nodes[q].content == w.nodes[q].content
  {
    var q := Resolve(w.nodes, src, MAXSYMLINKS).value;
    var o := OpenStep(w, src, ReadOnly, 0, f.openSrc);
    if o.err.None? && !(!dne && opts.iflag && Declines(f.answer)) {
      var d := Retry(FirstOpen(o.w, opts, to, st, dne, f), opts, to, st, f);
      OpensKeep(o.w, opts, to, st, dne, f, q);
      DestNotSource(w, o.w, opts, src, to, st, dne, f);
      if d.Dest? && d.fd.Some? {
        assert InStep(d.w, o.val, d.fd.value);
        BodyCopies(d.w, opts, to, o.val, d.fd.value, st, dne, f);
      }
    }
  }
}
