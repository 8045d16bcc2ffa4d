/**
 * The attribute setter and the copiers for symlinks, fifos and device nodes
 * of the copy utility (src/utils.c): set_utimes, setfile, copy_link,
 * copy_fifo and copy_special. Each is a method on the filesystem object,
 * proved equal to a specification function; the lemmas state what the
 * source promises about those functions.
 */
module Utils {
  import opened Optional
  import opened Modes
  import opened FsModel

  /** MAXPATHLEN: the size of copy_link's target buffer. */
  const MAXPATHLEN: nat := 1024

  /** The copy utility's global flags and identity (the externs of its main
      program), resolved once at startup. */
  datatype Options = Options(
    iflag: bool,   // -i: ask before overwriting
    fflag: bool,   // -f: unlink and retry when the destination cannot be opened
    pflag: bool,   // -p: preserve owner, mode, flags and times
    Rflag: bool,   // -R: recursive
    Lflag: bool,   // -L: follow every symlink
    Hflag: bool,   // -H: follow symlinks named on the command line
    Pflag: bool,   // -P: follow no symlink
    Nflag: bool,   // -N: do not copy file flags
    myuid: int,    // the invoking user
    myumask: Mode) // the invoking user's umask

  /** tolnk of copy_file: symlinks are copied as links, not followed. */
  predicate Tolnk(o: Options)
  {
    (o.Rflag && !(o.Lflag || o.Hflag)) || o.Pflag
  }

  /** The result of a copier: the new world and the value it returns. */
  datatype Outcome = Outcome(w: World, rval: int)

  // ---------------------------------------------------------------------
  // set_utimes

  /** TIMESPEC_TO_TIMEVAL: nanoseconds cut down to whole microseconds. */
  function ToTimeval(ts: Timespec): (tv: Timeval)
    ensures tv.sec == ts.sec
    ensures tv.usec * 1000 <= ts.nsec < tv.usec * 1000 + 1000
  {
    Timeval(ts.sec, ts.nsec / 1000)
  }

  /** set_utimes: lutimes on `file` with the source's access and modification times. */
  function SetUtimesSpec(w: World, file: Path, st: Stat, fault: Fault): (r: Ret<int>)
    ensures r.val == 0 || r.val == 1
  {
    var u := UtimesStep(w, ByLink(file), ToTimeval(st.atime), ToTimeval(st.mtime), fault);
    Ret(u.w, u.err, if u.err.Some? then 1 else 0)
  }

  method SetUtimes(fs: FileSystem, file: Path, st: Stat, fault: Fault) returns (rval: int)
    modifies fs
    ensures fs.State() == SetUtimesSpec(old(fs.State()), file, st, fault).w
    ensures rval == SetUtimesSpec(old(fs.State()), file, st, fault).val
  {
    var err := fs.Utimes(ByLink(file), ToTimeval(st.atime), ToTimeval(st.mtime), fault);
    if err.Some? {
      return 1;
    }
    return 0;
  }

  /** A timestamp set by set_utimes keeps the seconds and loses only the
      nanoseconds below one microsecond. */
  lemma SetUtimesTruncates(ts: Timespec)
    ensures TimeOf(ToTimeval(ts)).sec == ts.sec
    ensures TimeOf(ToTimeval(ts)).nsec == ts.nsec - ts.nsec % 1000
  {
    var tv := ToTimeval(ts);
    assert ts.nsec == (ts.nsec / 1000) * 1000 + ts.nsec % 1000;
  }

  // ---------------------------------------------------------------------
  // setfile

  /** The oracle's answers for setfile's four calls. */
  datatype SetfileFaults = SetfileFaults(chown: Fault, chmod: Fault, chflags: Fault, utimes: Fault)

  /** setfile's outcome: the new world, its return value, and the caller's
      stat after setfile masked its st_mode in place. */
  datatype SetfileResult = SetfileResult(w: World, rval: int, st: Stat)

  /** The object setfile works on: the open descriptor when there is one,
      else the destination path without following a symlink. */
  function SetfileTarget(to: Path, fd: Option<OpenFile>): Target
  {
    if fd.Some? then ByFd(fd.value) else ByLink(to)
  }

  /** chflags is skipped for a symlink source and under -N. */
  predicate FlagsAttempted(st: Stat, nflag: bool)
  {
    !IsLnk(st.mode) && !nflag
  }

  /** A chflags failure is tolerated only as EOPNOTSUPP with no flags to copy. */
  predicate FlagsFailureCounts(err: Errno, flags: Bits32)
  {
    err != EOPNOTSUPP || flags != 0
  }

  /** lchown/fchown to the source's owner and group. Only a failure other
      than EPERM is reported; any failure removes setuid and setgid from
      the mode chmod will be given. */
  function OwnerStage(s: SetfileResult, t: Target, fault: Fault): (r: SetfileResult)
  {
    var c := ChownStep(s.w, t, s.st.uid, s.st.gid, fault);
    SetfileResult(c.w, if c.err.Some? && c.err.value != EPERM then 1 else s.rval,
                  if c.err.Some? then s.st.(mode := StripSetId(s.st.mode)) else s.st)
  }

  /** lchmod/fchmod to the mode computed so far; every failure is reported. */
  function ModeStage(s: SetfileResult, t: Target, fault: Fault): (r: SetfileResult)
  {
    var m := ChmodStep(s.w, t, s.st.mode, fault);
    SetfileResult(m.w, if m.err.Some? then 1 else s.rval, s.st)
  }

  /** chflags (by path, following a symlink) or fchflags, when attempted. */
  function FlagsStage(s: SetfileResult, to: Path, fd: Option<OpenFile>, attempted: bool, fault: Fault): (r: SetfileResult)
  {
    if !attempted then s
    else
      var fl := ChflagsStep(s.w, if fd.Some? then ByFd(fd.value) else ByPath(to), s.st.flags, fault);
      SetfileResult(fl.w, if fl.err.Some? && FlagsFailureCounts(fl.err.value, s.st.flags) then 1 else s.rval, s.st)
  }

  /** set_utimes, in the path form only. */
  function TimesStage(s: SetfileResult, to: Path, fd: Option<OpenFile>, fault: Fault): (r: SetfileResult)
  {
    if fd.Some? then s
    else
      var u := SetUtimesSpec(s.w, to, s.st, fault);
      SetfileResult(u.w, if u.val == 1 then 1 else s.rval, s.st)
  }

  /** setfile as a function of the world: the four stages in order, starting
      from return value 0 and the masked source mode. */
  function SetfileSpec(w: World, to: Path, st: Stat, fd: Option<OpenFile>, nflag: bool, f: SetfileFaults): (r: SetfileResult)
  {
    var t := SetfileTarget(to, fd);
    var s0 := SetfileResult(w, 0, st.(mode := SetfileMode(st.mode)));
    var s1 := OwnerStage(s0, t, f.chown);
    var s2 := ModeStage(s1, t, f.chmod);
    var s3 := FlagsStage(s2, to, fd, FlagsAttempted(st, nflag), f.chflags);
    TimesStage(s3, to, fd, f.utimes)
  }

  /** setfile: owner, then mode, then flags, then (path form only) times;
      every step is attempted whatever happened before. */
  method Setfile(fs: FileSystem, to: Path, st: Stat, fd: Option<OpenFile>, nflag: bool, f: SetfileFaults)
    returns (rval: int, st': Stat)
    modifies fs
    ensures fs.State() == SetfileSpec(old(fs.State()), to, st, fd, nflag, f).w
    ensures rval == SetfileSpec(old(fs.State()), to, st, fd, nflag, f).rval
    ensures st' == SetfileSpec(old(fs.State()), to, st, fd, nflag, f).st
  {
    rval := 0;
    var islink := IsLnk(st.mode);
    st' := st.(mode := SetfileMode(st.mode));
    var t := SetfileTarget(to, fd);
    ghost var s := SetfileResult(fs.State(), rval, st');

    var err := fs.Chown(t, st'.uid, st'.gid, f.chown);
    if err.Some? {
      if err.value != EPERM {
        rval := 1;
      }
      st' := st'.(mode := StripSetId(st'.mode));
    }
    s := OwnerStage(s, t, f.chown);
    assert fs.State() == s.w && rval == s.rval && st' == s.st;

    err := fs.Chmod(t, st'.mode, f.chmod);
    if err.Some? {
      rval := 1;
    }
    s := ModeStage(s, t, f.chmod);
    assert fs.State() == s.w && rval == s.rval && st' == s.st;

    if !islink && !nflag {
      err := fs.Chflags(if fd.Some? then ByFd(fd.value) else ByPath(to), st.flags, f.chflags);
      if err.Some? && FlagsFailureCounts(err.value, st.flags) {
        rval := 1;
      }
    }
    s := FlagsStage(s, to, fd, FlagsAttempted(st, nflag), f.chflags);
    assert fs.State() == s.w && rval == s.rval && st' == s.st;

    if fd.None? {
      var u := SetUtimes(fs, to, st, f.utimes);
      if u == 1 {
        rval := 1;
      }
    }
    s := TimesStage(s, to, fd, f.utimes);
    assert fs.State() == s.w && rval == s.rval && st' == s.st;
  }

  /** setfile changes attributes only: every node keeps its bytes. */
  lemma SetfileKeepsContents(w: World, to: Path, st: Stat, fd: Option<OpenFile>, nflag: bool, f: SetfileFaults)
    ensures ContentsKept(w, SetfileSpec(w, to, st, fd, nflag, f).w)
  {
    var t := SetfileTarget(to, fd);
    var s0 := SetfileResult(w, 0, st.(mode := SetfileMode(st.mode)));
    var s1 := OwnerStage(s0, t, f.chown);
    var s2 := ModeStage(s1, t, f.chmod);
    var s3 := FlagsStage(s2, to, fd, FlagsAttempted(st, nflag), f.chflags);
    var s4 := TimesStage(s3, to, fd, f.utimes);
    var ft := if fd.Some? then ByFd(fd.value) else ByPath(to);
    var atv, mtv := ToTimeval(st.atime), ToTimeval(st.mtime);
    AttrKeepsContents(s0.w, t, s0.st.uid, s0.st.gid, 0, 0, atv, mtv, f.chown);
    AttrKeepsContents(s1.w, t, 0, 0, s1.st.mode, 0, atv, mtv, f.chmod);
    AttrKeepsContents(s2.w, ft, 0, 0, 0, s2.st.flags, atv, mtv, f.chflags);
    AttrKeepsContents(s3.w, ByLink(to), 0, 0, 0, 0, atv, mtv, f.utimes);
    KeptTrans(s0.w, s1.w, s2.w);
    KeptTrans(s0.w, s2.w, s3.w);
    KeptTrans(s0.w, s3.w, s4.w);
  }

  /** The destination setfile works on exists; in the path form it is not a
      symlink unless the source is one (chflags would follow it). */
  predicate Settable(w: World, to: Path, st: Stat, fd: Option<OpenFile>)
  {
    if fd.Some? then Present(w.nodes, fd.value.node)
    else Present(w.nodes, Canon(to)) && (w.nodes[Canon(to)].kind == Symlink ==> IsLnk(st.mode))
  }

  /** The node setfile changes. */
  function SetfileKey(to: Path, fd: Option<OpenFile>): Path
  {
    if fd.Some? then fd.value.node else Canon(to)
  }

  /** Every stage leaves the node it works on in place, of the same kind. */
  predicate KeptAt(w: World, w': World, k: Path)
  {
    Present(w.nodes, k) && Present(w'.nodes, k) && w'.nodes[k].kind == w.nodes[k].kind
  }

  /** The owner stage on an existing node: its report, and the node after it. */
  lemma OwnerStageOn(s: SetfileResult, t: Target, k: Path, fault: Fault)
    requires KeyOf(s.w.nodes, t) == Some(k) && Present(s.w.nodes, k)
    ensures var r := OwnerStage(s, t, fault);
      && (r.rval == 1 <==> s.rval == 1 || (fault.Some? && fault.value != EPERM))
      && KeptAt(s.w, r.w, k)
      && r.w.log == s.w.log + [Chown(t, s.st.uid, s.st.gid)] && r.w.env == s.w.env
      && r.st == (if fault.Some? then s.st.(mode := StripSetId(s.st.mode)) else s.st)
      && (fault.None? ==> r.rval == s.rval && r.st == s.st &&
                          r.w.nodes == s.w.nodes[k := Chowned(s.w.nodes[k], s.st.uid, s.st.gid)])
  {
  }

  /** The mode stage on an existing node: its report, and the node after it. */
  lemma ModeStageOn(s: SetfileResult, t: Target, k: Path, fault: Fault)
    requires KeyOf(s.w.nodes, t) == Some(k) && Present(s.w.nodes, k)
    ensures var r := ModeStage(s, t, fault);
      && (r.rval == 1 <==> s.rval == 1 || fault.Some?)
      && KeptAt(s.w, r.w, k)
      && r.w.log == s.w.log + [Chmod(t, s.st.mode)] && r.w.env == s.w.env && r.st == s.st
      && (fault.None? ==> r.rval == s.rval &&
                          r.w.nodes == s.w.nodes[k := s.w.nodes[k].(perm := Perms(s.st.mode))])
  {
  }

  /** The flags stage on an existing node that chflags reaches. */
  lemma FlagsStageOn(s: SetfileResult, to: Path, fd: Option<OpenFile>, attempted: bool, k: Path, fault: Fault)
    requires Present(s.w.nodes, k)
    requires attempted ==> KeyOf(s.w.nodes, if fd.Some? then ByFd(fd.value) else ByPath(to)) == Some(k)
    ensures var r := FlagsStage(s, to, fd, attempted, fault);
      && (r.rval == 1 <==> s.rval == 1 || (attempted && fault.Some? && FlagsFailureCounts(fault.value, s.st.flags)))
      && KeptAt(s.w, r.w, k)
      && r.w.log == s.w.log + (if attempted then [Chflags(if fd.Some? then ByFd(fd.value) else ByPath(to), s.st.flags)] else [])
      && r.w.env == s.w.env && r.st == s.st
      && (fault.None? ==> r.rval == s.rval &&
                          r.w.nodes == if attempted then s.w.nodes[k := s.w.nodes[k].(flags := s.st.flags)] else s.w.nodes)
  {
  }

  /** The times stage on an existing node. */
  lemma TimesStageOn(s: SetfileResult, to: Path, fd: Option<OpenFile>, k: Path, fault: Fault)
    requires Present(s.w.nodes, k) && (fd.None? ==> k == Canon(to))
    ensures var r := TimesStage(s, to, fd, fault);
      && (r.rval == 1 <==> s.rval == 1 || (fd.None? && fault.Some?))
      && r.w.log == s.w.log + (if fd.None? then [Utimes(ByLink(to), ToTimeval(s.st.atime), ToTimeval(s.st.mtime))] else [])
      && r.w.env == s.w.env && r.st == s.st
      && (fault.None? ==> r.rval == s.rval &&
                          r.w.nodes == if fd.Some? then s.w.nodes
                                       else s.w.nodes[k := s.w.nodes[k].(atime := TimeOf(ToTimeval(s.st.atime)),
                                                                         mtime := TimeOf(ToTimeval(s.st.mtime)))])
  {
  }

  /** Once the destination exists, only the oracle's errors matter: setfile
      returns 1 exactly when chown failed with an errno other than EPERM,
      chmod failed, an attempted chflags failed other than with EOPNOTSUPP
      on zero flags, or the path-form lutimes failed. */
  lemma SetfileResultIff(w: World, to: Path, st: Stat, fd: Option<OpenFile>, nflag: bool, f: SetfileFaults)
    requires Settable(w, to, st, fd)
    ensures SetfileSpec(w, to, st, fd, nflag, f).rval == 1 <==>
      || (f.chown.Some? && f.chown.value != EPERM)
      || f.chmod.Some?
      || (FlagsAttempted(st, nflag) && f.chflags.Some? && FlagsFailureCounts(f.chflags.value, st.flags))
      || (fd.None? && f.utimes.Some?)
  {
    var k := SetfileKey(to, fd);
    var t := SetfileTarget(to, fd);
    var s0 := SetfileResult(w, 0, st.(mode := SetfileMode(st.mode)));
    OwnerStageOn(s0, t, k, f.chown);
    var s1 := OwnerStage(s0, t, f.chown);
    ModeStageOn(s1, t, k, f.chmod);
    var s2 := ModeStage(s1, t, f.chmod);
    if FlagsAttempted(st, nflag) && fd.None? {
      assert Resolve(s2.w.nodes, to, MAXSYMLINKS) == Some(k);
    }
    FlagsStageOn(s2, to, fd, FlagsAttempted(st, nflag), k, f.chflags);
    var s3 := FlagsStage(s2, to, fd, FlagsAttempted(st, nflag), f.chflags);
    TimesStageOn(s3, to, fd, k, f.utimes);
  }

  /** setfile issues chown, then chmod, then (unless skipped) chflags, then
      (path form only) lutimes, each exactly once and whatever the earlier
      calls returned. The mode given to chmod is the setfile mask of the
      source mode, minus setuid/setgid exactly when chown failed (EPERM or
      not), and it is the mode left in the caller's stat. */
  lemma SetfileCallOrder(w: World, to: Path, st: Stat, fd: Option<OpenFile>, nflag: bool, f: SetfileFaults)
    requires Settable(w, to, st, fd)
    ensures var r := SetfileSpec(w, to, st, fd, nflag, f);
      var t := SetfileTarget(to, fd);
      && r.st == st.(mode := if f.chown.Some? then StripSetId(SetfileMode(st.mode)) else SetfileMode(st.mode))
      && r.w.log == w.log + [Chown(t, st.uid, st.gid), Chmod(t, r.st.mode)]
           + (if FlagsAttempted(st, nflag) then [Chflags(if fd.Some? then ByFd(fd.value) else ByPath(to), st.flags)] else [])
           + (if fd.None? then [Utimes(ByLink(to), ToTimeval(st.atime), ToTimeval(st.mtime))] else [])
  {
    var k := SetfileKey(to, fd);
    var t := SetfileTarget(to, fd);
    var s0 := SetfileResult(w, 0, st.(mode := SetfileMode(st.mode)));
    OwnerStageOn(s0, t, k, f.chown);
    var s1 := OwnerStage(s0, t, f.chown);
    ModeStageOn(s1, t, k, f.chmod);
    var s2 := ModeStage(s1, t, f.chmod);
    assert s2.w.log == w.log + [Chown(t, st.uid, st.gid), Chmod(t, s1.st.mode)];
    if FlagsAttempted(st, nflag) && fd.None? {
      assert Resolve(s2.w.nodes, to, MAXSYMLINKS) == Some(k);
    }
    FlagsStageOn(s2, to, fd, FlagsAttempted(st, nflag), k, f.chflags);
    var s3 := FlagsStage(s2, to, fd, FlagsAttempted(st, nflag), f.chflags);
    TimesStageOn(s3, to, fd, k, f.utimes);
  }

  /** The node setfile leaves when no call fails. */
  function SetfileNode(n: Node, st: Stat, fd: Option<OpenFile>, nflag: bool): Node
  {
    n.(uid := st.uid, gid := st.gid, perm := Perms(SetfileMode(st.mode)),
       flags := if FlagsAttempted(st, nflag) then st.flags else n.flags,
       atime := if fd.None? then TimeOf(ToTimeval(st.atime)) else n.atime,
       mtime := if fd.None? then TimeOf(ToTimeval(st.mtime)) else n.mtime)
  }

  /** Without faults, chown then chmod give the node the source's owner
      and masked mode. */
  lemma OwnerModeNoFault(s0: SetfileResult, t: Target, k: Path)
    requires !t.ByPath? && KeyOf(s0.w.nodes, t) == Some(k) && Present(s0.w.nodes, k)
    ensures var s2 := ModeStage(OwnerStage(s0, t, None), t, None);
      && s2.rval == s0.rval && s2.st == s0.st
      && s2.w.nodes == s0.w.nodes[k := s0.w.nodes[k].(uid := s0.st.uid, gid := s0.st.gid, perm := Perms(s0.st.mode))]
  {
    OwnerStageOn(s0, t, k, None);
    var s1 := OwnerStage(s0, t, None);
    assert KeyOf(s1.w.nodes, t) == Some(k);
    ModeStageOn(s1, t, k, None);
  }

  /** Without faults, chflags (when attempted) then the path-form lutimes
      give the node the source's flags and times. */
  lemma FlagsTimesNoFault(s2: SetfileResult, to: Path, fd: Option<OpenFile>, attempted: bool, k: Path)
    requires Present(s2.w.nodes, k) && k == SetfileKey(to, fd)
    requires attempted && fd.None? ==> Resolve(s2.w.nodes, to, MAXSYMLINKS) == Some(k)
    ensures var s4 := TimesStage(FlagsStage(s2, to, fd, attempted, None), to, fd, None);
      var n := s2.w.nodes[k];
      && s4.rval == s2.rval
      && s4.w.nodes == s2.w.nodes[k := n.(flags := if attempted then s2.st.flags else n.flags,
                                          atime := if fd.None? then TimeOf(ToTimeval(s2.st.atime)) else n.atime,
                                          mtime := if fd.None? then TimeOf(ToTimeval(s2.st.mtime)) else n.mtime)]
  {
    FlagsStageOn(s2, to, fd, attempted, k, None);
    TimesStageOn(FlagsStage(s2, to, fd, attempted, None), to, fd, k, None);
  }

  /** Without faults the four stages replace the one node and nothing else. */
  lemma SetfileNodesNoFault(w: World, to: Path, st: Stat, fd: Option<OpenFile>, nflag: bool)
    requires Settable(w, to, st, fd)
    ensures var r := SetfileSpec(w, to, st, fd, nflag, SetfileFaults(None, None, None, None));
      var k := SetfileKey(to, fd);
      r.rval == 0 && r.w.nodes == w.nodes[k := SetfileNode(w.nodes[k], st, fd, nflag)]
  {
    var k := SetfileKey(to, fd);
    var t := SetfileTarget(to, fd);
    var s0 := SetfileResult(w, 0, st.(mode := SetfileMode(st.mode)));
    OwnerModeNoFault(s0, t, k);
    var s2 := ModeStage(OwnerStage(s0, t, None), t, None);
    if FlagsAttempted(st, nflag) && fd.None? {
      assert Resolve(s2.w.nodes, to, MAXSYMLINKS) == Some(k);
    }
    FlagsTimesNoFault(s2, to, fd, FlagsAttempted(st, nflag), k);
  }

  /** When no call fails, the destination ends with the source's owner,
      group and masked mode, its flags unless they were skipped, and, in the
      path form, its times cut to microseconds; nothing else of it changes,
      and no other node changes. */
  lemma SetfilePreserves(w: World, to: Path, st: Stat, fd: Option<OpenFile>, nflag: bool)
    requires Settable(w, to, st, fd)
    ensures var r := SetfileSpec(w, to, st, fd, nflag, SetfileFaults(None, None, None, None));
      var k := SetfileKey(to, fd);
      var n := w.nodes[k];
      && r.rval == 0
      && r.w.nodes.Keys == w.nodes.Keys
      && r.w.nodes[k] == n.(uid := st.uid, gid := st.gid, perm := Perms(SetfileMode(st.mode)),
                            flags := if FlagsAttempted(st, nflag) then st.flags else n.flags,
                            atime := if fd.None? then TimeOf(ToTimeval(st.atime)) else n.atime,
                            mtime := if fd.None? then TimeOf(ToTimeval(st.mtime)) else n.mtime)
      && forall k' :: k' in w.nodes && k' != k ==> r.w.nodes[k'] == w.nodes[k']
  {
    SetfileNodesNoFault(w, to, st, fd, nflag);
  }

  // ---------------------------------------------------------------------
  // copy_link, copy_fifo, copy_special

  /** The oracle's answers for the calls of copy_link, copy_fifo and
      copy_special (`readlink` is used by copy_link only). */
  datatype NodeFaults = NodeFaults(readlink: Fault, unlink: Fault, create: Fault, setfile: SetfileFaults)

  /** The kind of entry a copier makes in place of the destination. */
  datatype Entry = LinkTo(linkTarget: string) | FifoEntry | DeviceEntry

  /** The call that makes the entry: symlink, mkfifo with the source mode,
      or mknod with the source mode and device number. */
  function MakeStep(w: World, to: Path, e: Entry, st: Stat, fault: Fault): Ret<()>
  {
    match e
    case LinkTo(t) => SymlinkStep(w, t, to, fault)
    case FifoEntry => MkfifoStep(w, to, st.mode, fault)
    case DeviceEntry => MknodStep(w, to, st.mode, st.rdev, fault)
  }

  /** The log entry of the making call. */
  function MakeCall(to: Path, e: Entry, st: Stat): Call
  {
    match e
    case LinkTo(t) => SymlinkCall(t, to)
    case FifoEntry => Mkfifo(to, st.mode)
    case DeviceEntry => Mknod(to, st.mode, st.rdev)
  }

  /** The making call accepts the entry: mknod only makes devices. */
  predicate Makeable(e: Entry, st: Stat)
  {
    e.DeviceEntry? ==> DeviceKind(st.mode).Some?
  }

  /** The node the making call adds. */
  function EntryNode(env: Env, e: Entry, st: Stat): Node
    requires Makeable(e, st)
  {
    match e
    case LinkTo(t) => NewNode(env, Symlink, FromBits(ACCESSPERMS & !Bits(env.cmask))).(target := t)
    case FifoEntry => NewNode(env, Fifo, Created(st.mode, env.cmask))
    case DeviceEntry =>
      NewNode(env, DeviceKind(st.mode).value, Created(st.mode, env.cmask)).(rdev := st.rdev)
  }

  /** The shared tail of the three copiers: unlink the destination when it
      exists, make the entry, then setfile under -p. */
  function ReplaceSpec(w: World, opts: Options, to: Path, st: Stat, destExists: bool, e: Entry, f: NodeFaults): (r: Outcome)
  {
    var u := if destExists then UnlinkStep(w, to, f.unlink) else Ret(w, None, ());
    if u.err.Some? then Outcome(u.w, 1)
    else
      var m := MakeStep(u.w, to, e, st, f.create);
      if m.err.Some? then Outcome(m.w, 1)
      else if opts.pflag then
        var sf := SetfileSpec(m.w, to, st, None, opts.Nflag, f.setfile);
        Outcome(sf.w, sf.rval)
      else Outcome(m.w, 0)
  }

  /** copy_link: read the source link's target into a MAXPATHLEN buffer
      (at most MAXPATHLEN-1 bytes) and make a symlink to it. */
  function CopyLinkSpec(w: World, opts: Options, src: Path, to: Path, st: Stat, destExists: bool, f: NodeFaults): (r: Outcome)
  {
    var rl := ReadlinkStep(w, src, MAXPATHLEN - 1, f.readlink);
    if rl.err.Some? then Outcome(rl.w, 1)
    else ReplaceSpec(rl.w, opts, to, st, destExists, LinkTo(rl.val), f)
  }

  /** copy_fifo: a fifo with the source's mode. */
  function CopyFifoSpec(w: World, opts: Options, to: Path, st: Stat, destExists: bool, f: NodeFaults): (r: Outcome)
  {
    ReplaceSpec(w, opts, to, st, destExists, FifoEntry, f)
  }

  /** copy_special: a device node with the source's mode and device number. */
  function CopySpecialSpec(w: World, opts: Options, to: Path, st: Stat, destExists: bool, f: NodeFaults): (r: Outcome)
  {
    ReplaceSpec(w, opts, to, st, destExists, DeviceEntry, f)
  }

  method CopyLink(fs: FileSystem, opts: Options, src: Path, to: Path, st: Stat, destExists: bool, f: NodeFaults)
    returns (rval: int)
    modifies fs
    ensures fs.State() == CopyLinkSpec(old(fs.State()), opts, src, to, st, destExists, f).w
    ensures rval == CopyLinkSpec(old(fs.State()), opts, src, to, st, destExists, f).rval
  {
    var err, target := fs.Readlink(src, MAXPATHLEN - 1, f.readlink);
    if err.Some? {
      return 1;
    }
    if destExists {
      err := fs.Unlink(to, f.unlink);
      if err.Some? {
        return 1;
      }
    }
    err := fs.Symlink(target, to, f.create);
    if err.Some? {
      return 1;
    }
    if opts.pflag {
      var masked;
      rval, masked := Setfile(fs, to, st, None, opts.Nflag, f.setfile);
    } else {
      rval := 0;
    }
  }

  method CopyFifo(fs: FileSystem, opts: Options, to: Path, st: Stat, destExists: bool, f: NodeFaults)
    returns (rval: int)
    modifies fs
    ensures fs.State() == CopyFifoSpec(old(fs.State()), opts, to, st, destExists, f).w
    ensures rval == CopyFifoSpec(old(fs.State()), opts, to, st, destExists, f).rval
  {
    if destExists {
      var err := fs.Unlink(to, f.unlink);
      if err.Some? {
        return 1;
      }
    }
    var err := fs.Mkfifo(to, st.mode, f.create);
    if err.Some? {
      return 1;
    }
    if opts.pflag {
      var masked;
      rval, masked := Setfile(fs, to, st, None, opts.Nflag, f.setfile);
    } else {
      rval := 0;
    }
  }

  method CopySpecial(fs: FileSystem, opts: Options, to: Path, st: Stat, destExists: bool, f: NodeFaults)
    returns (rval: int)
    modifies fs
    ensures fs.State() == CopySpecialSpec(old(fs.State()), opts, to, st, destExists, f).w
    ensures rval == CopySpecialSpec(old(fs.State()), opts, to, st, destExists, f).rval
  {
    if destExists {
      var err := fs.Unlink(to, f.unlink);
      if err.Some? {
        return 1;
      }
    }
    var err := fs.Mknod(to, st.mode, st.rdev, f.create);
    if err.Some? {
      return 1;
    }
    if opts.pflag {
      var masked;
      rval, masked := Setfile(fs, to, st, None, opts.Nflag, f.setfile);
    } else {
      rval := 0;
    }
  }

  /** The unlink of an existing destination succeeds. */
  predicate Unlinked(w: World, to: Path, destExists: bool, f: NodeFaults)
  {
    !destExists || (Present(w.nodes, Canon(to)) && w.nodes[Canon(to)].kind != Directory && f.unlink.None?)
  }

  /** The entry is made: the unlink (if any) succeeded, the name is then free,
      and the making call accepts it. */
  predicate Made(w: World, to: Path, destExists: bool, e: Entry, st: Stat, f: NodeFaults)
  {
    && Unlinked(w, to, destExists, f)
    && to != "" && (destExists || !Present(w.nodes, Canon(to)))
    && Makeable(e, st) && f.create.None?
  }

  /** The unlink step of a copier: the destination name is free afterwards. */
  lemma UnlinkOn(w: World, to: Path, destExists: bool, f: NodeFaults)
    requires Unlinked(w, to, destExists, f) && (destExists || !Present(w.nodes, Canon(to)))
    ensures var u := if destExists then UnlinkStep(w, to, f.unlink) else Ret(w, None, ());
      && u.err.None? && u.w.env == w.env && !Present(u.w.nodes, Canon(to))
      && u.w.nodes == (if destExists then w.nodes - {Canon(to)} else w.nodes)
  {
  }

  /** Setting a key after removing it is setting it. */
  lemma RemoveThenSet<K, V>(m: map<K, V>, k: K, v: V)
    ensures (m - {k})[k := v] == m[k := v]
  {
  }

  /** The making call on a free name adds exactly the entry's node. */
  lemma MakeOn(w: World, to: Path, e: Entry, st: Stat, fault: Fault)
    requires to != "" && !Present(w.nodes, Canon(to)) && Makeable(e, st) && fault.None?
    ensures var m := MakeStep(w, to, e, st, fault);
      && m.err.None? && m.w.env == w.env
      && m.w.nodes == w.nodes[Canon(to) := EntryNode(w.env, e, st)]
  {
    match e
    case LinkTo(t) =>
    case FifoEntry =>
    case DeviceEntry =>
  }

  /** A failed unlink or making call returns 1 and calls nothing after it:
      the log gains the unlink (when the destination existed) and, unless
      that failed, the making call, and no attribute call; the destination
      is gone exactly when it was unlinked. */
  lemma ReplaceFailure(w: World, opts: Options, to: Path, st: Stat, destExists: bool, e: Entry, f: NodeFaults)
    requires !Made(w, to, destExists, e, st, f)
    ensures var r := ReplaceSpec(w, opts, to, st, destExists, e, f);
      && r.rval == 1
      && r.w.nodes == (if destExists && Unlinked(w, to, destExists, f) then w.nodes - {Canon(to)} else w.nodes)
      && r.w.log == w.log + (if destExists then [Unlink(to)] else [])
                    + (if Unlinked(w, to, destExists, f) then [MakeCall(to, e, st)] else [])
  {
  }

  /** Without -p a made entry is the copier's whole effect: the destination
      name holds the new node and the result is 0. */
  lemma ReplaceMade(w: World, opts: Options, to: Path, st: Stat, destExists: bool, e: Entry, f: NodeFaults)
    requires Made(w, to, destExists, e, st, f) && !opts.pflag
    ensures var r := ReplaceSpec(w, opts, to, st, destExists, e, f);
      r.rval == 0 && r.w.nodes == w.nodes[Canon(to) := EntryNode(w.env, e, st)]
  {
    var u := if destExists then UnlinkStep(w, to, f.unlink) else Ret(w, None, ());
    UnlinkOn(w, to, destExists, f);
    MakeOn(u.w, to, e, st, f.create);
    RemoveThenSet(w.nodes, Canon(to), EntryNode(w.env, e, st));
  }

  /** Under -p the copier's result is setfile's on the new entry, in the
      path form: 1 exactly when one of setfile's calls failed as setfile
      reports it. */
  lemma ReplacePreserved(w: World, opts: Options, to: Path, st: Stat, destExists: bool, e: Entry, f: NodeFaults)
    requires Made(w, to, destExists, e, st, f) && opts.pflag
    requires e.LinkTo? ==> IsLnk(st.mode)
    ensures ReplaceSpec(w, opts, to, st, destExists, e, f).rval == 1 <==>
      || (f.setfile.chown.Some? && f.setfile.chown.value != EPERM)
      || f.setfile.chmod.Some?
      || (FlagsAttempted(st, opts.Nflag) && f.setfile.chflags.Some? && FlagsFailureCounts(f.setfile.chflags.value, st.flags))
      || f.setfile.utimes.Some?
  {
    var u := if destExists then UnlinkStep(w, to, f.unlink) else Ret(w, None, ());
    UnlinkOn(w, to, destExists, f);
    MakeOn(u.w, to, e, st, f.create);
    var m := MakeStep(u.w, to, e, st, f.create);
    assert Settable(m.w, to, st, None);
    SetfileResultIff(m.w, to, st, None, opts.Nflag, f.setfile);
  }

  /** copy_link copies at most MAXPATHLEN-1 bytes of the target: the new
      link points at the source's target cut to that length. A failed
      readlink returns 1 and changes nothing. */
  lemma CopyLinkTarget(w: World, opts: Options, src: Path, to: Path, st: Stat, destExists: bool, f: NodeFaults)
    ensures var r := CopyLinkSpec(w, opts, src, to, st, destExists, f);
      var k := Canon(src);
      && (f.readlink.Some? || !Present(w.nodes, k) || w.nodes[k].kind != Symlink ==>
            r.rval == 1 && r.w.nodes == w.nodes)
      && (f.readlink.None? && Present(w.nodes, k) && w.nodes[k].kind == Symlink ==>
            var t := w.nodes[k].target;
            var t' := t[..Min(MAXPATHLEN - 1, |t|)];
            && |t'| <= MAXPATHLEN - 1
            && (|t| < MAXPATHLEN ==> t' == t)
            && r == ReplaceSpec(Logged(w, Readlink(src, MAXPATHLEN - 1)), opts, to, st, destExists, LinkTo(t'), f))
  {
  }
}
