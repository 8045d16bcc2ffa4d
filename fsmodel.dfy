/**
 * The abstract filesystem the utilities run against.
 *
 * The utilities reach their filesystem through syscalls (open, read, write,
 * lchown, lchmod, chflags, lutimes, unlink, mkdir, symlink, mkfifo, mknod,
 * readlink, stat); the backend behind them is foreign code. Here it is a map
 * from canonical path strings to nodes plus a log of every call issued. A
 * call either applies its stated effect or fails: with an errno the state
 * forces (a missing path, an existing one, a directory, a symlink loop) or,
 * otherwise, with the errno an oracle supplies for that call (`Fault`).
 */
module FsModel {
  import opened Optional
  import opened Modes

  type Byte = bv8
  type Path = string

  datatype Errno =
    | EPERM | ENOENT | EIO | EBADF | EACCES | EEXIST | ENOTDIR | EISDIR
    | EINVAL | ENOSPC | EROFS | ELOOP | EOPNOTSUPP | ENOMEM

  /** The oracle's answer for one call: None lets it succeed, Some(e) makes it fail with e. */
  type Fault = Option<Errno>

  /** The oracle's answer for one write: all bytes, a short count, or an error. */
  datatype WriteFault = Complete | Short(count: nat) | WriteError(errno: Errno)

  datatype Kind = Regular | Directory | Symlink | Fifo | CharDevice | BlockDevice | Socket

  datatype Timespec = Timespec(sec: int, nsec: nat)
  datatype Timeval = Timeval(sec: int, usec: nat)

  /** One filesystem object. `perm` holds the 07777 bits; the file type is `kind`. */
  datatype Node = Node(
    kind: Kind, perm: Mode, uid: int, gid: int, flags: Bits32,
    atime: Timespec, mtime: Timespec,
    content: seq<Byte>, target: string, rdev: int)

  /** struct stat as the callers see it: `mode` carries type and permission bits. */
  datatype Stat = Stat(
    mode: Mode, uid: int, gid: int, flags: Bits32,
    atime: Timespec, mtime: Timespec, size: int, rdev: int)

  /** How a syscall names its object: by path following symlinks (chmod,
      chflags, stat), by path not following them (lchown, lchmod, lutimes,
      lstat), or by an open descriptor (fchown, fchmod, fchflags, fstat). */
  datatype Target = ByPath(path: Path) | ByLink(path: Path) | ByFd(fd: OpenFile)

  datatype OpenHow =
    | ReadOnly                         // O_RDONLY
    | WriteTrunc                       // O_WRONLY | O_TRUNC
    | WriteTruncCreate                 // O_WRONLY | O_TRUNC | O_CREAT
    | ReadWriteCreate(append: bool)    // O_RDWR | O_CREAT [| O_APPEND]

  /** An open descriptor: the node it refers to and its file offset. */
  datatype OpenFile = OpenFile(node: Path, offset: nat, append: bool)

  /** One entry of the syscall log. */
  datatype Call =
    | Open(path: Path, how: OpenHow, mode: Mode)
    | Read(node: Path, count: nat)
    | Write(node: Path, count: nat)
    | Close(node: Path)
    | StatCall(target: Target)
    | Chown(target: Target, uid: int, gid: int)
    | Chmod(target: Target, mode: Mode)
    | Chflags(target: Target, flags: Bits32)
    | Utimes(target: Target, atime: Timeval, mtime: Timeval)
    | Unlink(path: Path)
    | Mkdir(path: Path, mode: Mode)
    | SymlinkCall(linkTarget: string, path: Path)
    | Mkfifo(path: Path, mode: Mode)
    | Mknod(path: Path, mode: Mode, dev: int)
    | Readlink(path: Path, size: nat)

  /** What the backend applies to every object it creates. */
  datatype Env = Env(cmask: Mode, euid: int, egid: int, now: Timespec)

  datatype World = World(nodes: map<Path, Node>, log: seq<Call>, env: Env)

  /** The outcome of one call: the new world, the errno when it failed, and its value. */
  datatype Ret<T> = Ret(w: World, err: Option<Errno>, val: T)

  /** MAXSYMLINKS: the number of links a lookup follows before ELOOP. */
  const MAXSYMLINKS: nat := 32

  function Min(a: int, b: int): int { if a <= b then a else b }

  // ---------------------------------------------------------------------
  // Path names

  /** Drops every '/' that directly follows another '/'. */
  function Collapse(p: string): (r: string)
    ensures |r| <= |p|
    ensures |p| > 0 ==> |r| > 0 && r[0] == p[0]
    decreases |p|
  {
    if |p| <= 1 then p
    else if p[0] == '/' && p[1] == '/' then Collapse(p[1..])
    else [p[0]] + Collapse(p[1..])
  }

  /** The name lookup uses: trailing slashes dropped (but "/" stays "/"),
      the other slash runs collapsed. "a//b/" and "a/b" name the same node. */
  function Canon(p: string): (r: string)
    ensures r == "" <==> p == ""
    decreases |p|
  {
    if |p| > 1 && p[|p| - 1] == '/' then Canon(p[..|p| - 1]) else Collapse(p)
  }

  /** The empty name never denotes a node. */
  predicate Present(nodes: map<Path, Node>, k: Path) { k != "" && k in nodes }

  /** Follows symlinks from `p`; None when more than `hops` links are met (ELOOP). */
  function Resolve(nodes: map<Path, Node>, p: Path, hops: nat): (r: Option<Path>)
    ensures r.Some? ==> !(Present(nodes, r.value) && nodes[r.value].kind == Symlink)
    decreases hops
  {
    var k := Canon(p);
    if Present(nodes, k) && nodes[k].kind == Symlink then
      if hops == 0 then None else Resolve(nodes, nodes[k].target, hops - 1)
    else Some(k)
  }

  /** The node key a target denotes, or None on a symlink loop. */
  function KeyOf(nodes: map<Path, Node>, t: Target): Option<Path>
  {
    match t
    case ByPath(p) => Resolve(nodes, p, MAXSYMLINKS)
    case ByLink(p) => Some(Canon(p))
    case ByFd(fd) => Some(fd.node)
  }

  /** The errno for a target that names nothing. */
  function MissingErr(t: Target): Errno
  {
    if t.ByFd? then EBADF else ENOENT
  }

  // ---------------------------------------------------------------------
  // Node helpers

  function TypeBits(k: Kind): bv32
  {
    match k
    case Regular => S_IFREG
    case Directory => S_IFDIR
    case Symlink => S_IFLNK
    case Fifo => S_IFIFO
    case CharDevice => S_IFCHR
    case BlockDevice => S_IFBLK
    case Socket => S_IFSOCK
  }

  /** What stat(2) reports for a node. */
  function StatOf(n: Node): (st: Stat)
    ensures st.uid == n.uid && st.gid == n.gid && st.size == |n.content|
  {
    Stat(FromBits(TypeBits(n.kind) | (Bits(n.perm) & ALLPERMS)), n.uid, n.gid, n.flags,
         n.atime, n.mtime, |n.content|, n.rdev)
  }

  /** A node the backend creates: owned by the caller, stamped with the current time. */
  function NewNode(env: Env, kind: Kind, perm: Mode): Node
  {
    Node(kind, perm, env.euid, env.egid, 0, env.now, env.now, [], "", 0)
  }

  /** `c` with `d` written over it from offset `off`, growing it if needed. */
  function Splice(c: seq<Byte>, off: nat, d: seq<Byte>): (r: seq<Byte>)
    requires off <= |c|
    ensures |r| == if off + |d| <= |c| then |c| else off + |d|
  {
    c[..off] + d + (if off + |d| < |c| then c[off + |d|..] else [])
  }

  /** What a write leaves in place: the bytes before `off`, then `d`, then
      the old bytes past the end of `d`. */
  lemma SpliceBytes(c: seq<Byte>, off: nat, d: seq<Byte>)
    requires off <= |c|
    ensures Splice(c, off, d)[..off] == c[..off]
    ensures Splice(c, off, d)[off..off + |d|] == d
    ensures off + |d| < |c| ==> Splice(c, off, d)[off + |d|..] == c[off + |d|..]
  {
  }

  /** The timestamp lutimes stores for a timeval. */
  function TimeOf(tv: Timeval): Timespec { Timespec(tv.sec, tv.usec * 1000) }

  // ---------------------------------------------------------------------
  // Syscalls as steps on a World

  function Logged(w: World, c: Call): (r: World)
    ensures r.nodes == w.nodes && r.env == w.env && r.log == w.log + [c]
  {
    w.(log := w.log + [c])
  }

  /** open(2). */
  function OpenStep(w: World, p: Path, how: OpenHow, mode: Mode, fault: Fault): (r: Ret<OpenFile>)
    ensures r.w.env == w.env && r.w.log == w.log + [Open(p, how, mode)]
    ensures r.err.None? ==> Present(r.w.nodes, r.val.node) && r.val.offset == 0
    ensures r.err.None? ==> r.val.append == (how.ReadWriteCreate? && how.append)
    ensures how.ReadOnly? ==> r.w.nodes == w.nodes
    ensures r.err.None? ==> Resolve(w.nodes, p, MAXSYMLINKS) == Some(r.val.node)
    ensures r.err.None? && how != ReadOnly ==> r.w.nodes[r.val.node].kind != Directory
    ensures r.err.None? && (how.WriteTrunc? || how.WriteTruncCreate?) ==> r.w.nodes[r.val.node].content == []
    ensures r.err.None? ==> r.w.nodes == w.nodes[r.val.node := r.w.nodes[r.val.node]]
    ensures r.err.Some? ==> r.w.nodes == w.nodes
  {
    var w1 := Logged(w, Open(p, how, mode));
    var none := OpenFile("", 0, false);
    match Resolve(w.nodes, p, MAXSYMLINKS)
    case None => Ret(w1, Some(ELOOP), none)
    case Some(q) =>
      if Present(w.nodes, q) then
        var n := w.nodes[q];
        if n.kind == Directory && how != ReadOnly then Ret(w1, Some(EISDIR), none)
        else if fault.Some? then Ret(w1, fault, none)
        else
          var n' := if how.WriteTrunc? || how.WriteTruncCreate? then n.(content := []) else n;
          Ret(w1.(nodes := w.nodes[q := n']), None,
              OpenFile(q, 0, how.ReadWriteCreate? && how.append))
      else if how.ReadOnly? || how.WriteTrunc? || q == "" then Ret(w1, Some(ENOENT), none)
      else if fault.Some? then Ret(w1, fault, none)
      else
        Ret(w1.(nodes := w.nodes[q := NewNode(w.env, Regular, Created(mode, w.env.cmask))]), None,
            OpenFile(q, 0, how.ReadWriteCreate? && how.append))
  }

  /** read(2) of up to `count` bytes at the descriptor's offset. */
  function ReadStep(w: World, fd: OpenFile, count: nat, fault: Fault): (r: Ret<(OpenFile, seq<Byte>)>)
    ensures r.w == Logged(w, Read(fd.node, count))
    ensures r.err.None? ==> Present(w.nodes, fd.node)
    ensures r.err.None? && fd.offset <= |w.nodes[fd.node].content| ==>
      var c := w.nodes[fd.node].content;
      var hi := Min(fd.offset + count, |c|);
      r.val.1 == c[fd.offset..hi] && r.val.0 == fd.(offset := hi)
    ensures r.err.Some? ==> r.val.0 == fd && r.val.1 == []
  {
    var w1 := Logged(w, Read(fd.node, count));
    if !Present(w.nodes, fd.node) then Ret(w1, Some(EBADF), (fd, []))
    else if fault.Some? then Ret(w1, fault, (fd, []))
    else
      var c := w.nodes[fd.node].content;
      var lo := Min(fd.offset, |c|);
      var hi := Min(lo + count, |c|);
      Ret(w1, None, (fd.(offset := hi), c[lo..hi]))
  }

  /** write(2): the bytes land at the offset (at the end with O_APPEND); a
      short write stores only its first `count` bytes. The value is the
      number of bytes written. */
  function WriteStep(w: World, fd: OpenFile, data: seq<Byte>, fault: WriteFault): (r: Ret<(OpenFile, nat)>)
    ensures r.w.env == w.env && r.w.log == w.log + [Write(fd.node, |data|)]
    ensures r.err.Some? ==> r.w.nodes == w.nodes && r.val == (fd, 0)
    ensures r.err.None? <==> Present(w.nodes, fd.node) && !fault.WriteError?
    ensures r.err.None? ==>
      var n := r.val.1;
      var c := w.nodes[fd.node].content;
      var off := if fd.append then |c| else Min(fd.offset, |c|);
      && n <= |data| && (fault.Complete? ==> n == |data|)
      && (fault.Short? ==> n == Min(fault.count, |data|))
      && r.w.nodes == w.nodes[fd.node := w.nodes[fd.node].(content := Splice(c, off, data[..n]))]
      && r.val.0 == fd.(offset := off + n)
  {
    var w1 := Logged(w, Write(fd.node, |data|));
    if !Present(w.nodes, fd.node) then Ret(w1, Some(EBADF), (fd, 0))
    else if fault.WriteError? then Ret(w1, Some(fault.errno), (fd, 0))
    else
      var n := if fault.Short? then Min(fault.count, |data|) else |data|;
      var node := w.nodes[fd.node];
      var off := if fd.append then |node.content| else Min(fd.offset, |node.content|);
      var c' := Splice(node.content, off, data[..n]);
      Ret(w1.(nodes := w.nodes[fd.node := node.(content := c')]), None, (fd.(offset := off + n), n))
  }

  /** close(2); only the oracle makes it fail. */
  function CloseStep(w: World, fd: OpenFile, fault: Fault): (r: Ret<()>)
    ensures r.w == Logged(w, Close(fd.node)) && r.err == fault
  {
    Ret(Logged(w, Close(fd.node)), fault, ())
  }

  /** stat(2), lstat(2) or fstat(2), by the kind of target. */
  function StatStep(w: World, t: Target, fault: Fault): (r: Ret<Stat>)
    ensures r.w == Logged(w, StatCall(t))
    ensures r.err.None? ==>
      KeyOf(w.nodes, t).Some? && Present(w.nodes, KeyOf(w.nodes, t).value) &&
      r.val == StatOf(w.nodes[KeyOf(w.nodes, t).value])
  {
    var w1 := Logged(w, StatCall(t));
    var dummy := Stat(0, 0, 0, 0, w.env.now, w.env.now, 0, 0);
    match KeyOf(w.nodes, t)
    case None => Ret(w1, Some(ELOOP), dummy)
    case Some(k) =>
      if !Present(w.nodes, k) then Ret(w1, Some(MissingErr(t)), dummy)
      else if fault.Some? then Ret(w1, fault, dummy)
      else Ret(w1, None, StatOf(w.nodes[k]))
  }

  /** The shared shape of the attribute calls: look the target up, let the
      oracle decide, then replace the node by `n'`. */
  function AttrCheck(w: World, t: Target, fault: Fault): (r: Option<Errno>)
    ensures r.None? ==> KeyOf(w.nodes, t).Some? && Present(w.nodes, KeyOf(w.nodes, t).value) && fault.None?
    ensures KeyOf(w.nodes, t).Some? && Present(w.nodes, KeyOf(w.nodes, t).value) ==> r == fault
  {
    match KeyOf(w.nodes, t)
    case None => Some(ELOOP)
    case Some(k) => if !Present(w.nodes, k) then Some(MissingErr(t)) else fault
  }

  /** A node after a successful change of owner: like the BSD kernels, the
      backend clears its setuid and setgid bits. */
  function Chowned(n: Node, uid: int, gid: int): Node
  {
    n.(uid := uid, gid := gid, perm := StripSetId(n.perm))
  }

  /** lchown(2) / fchown(2). */
  function ChownStep(w: World, t: Target, uid: int, gid: int, fault: Fault): (r: Ret<()>)
    ensures r.w.env == w.env && r.w.log == w.log + [Chown(t, uid, gid)]
    ensures r.err == AttrCheck(w, t, fault)
    ensures r.err.Some? ==> r.w.nodes == w.nodes
    ensures r.err.None? ==>
      var k := KeyOf(w.nodes, t).value;
      r.w.nodes == w.nodes[k := Chowned(w.nodes[k], uid, gid)]
  {
    var w1 := Logged(w, Chown(t, uid, gid));
    var e := AttrCheck(w, t, fault);
    if e.Some? then Ret(w1, e, ())
    else
      var k := KeyOf(w.nodes, t).value;
      Ret(w1.(nodes := w.nodes[k := Chowned(w.nodes[k], uid, gid)]), None, ())
  }

  /** chmod(2) / lchmod(2) / fchmod(2): the node keeps the 07777 bits of `mode`. */
  function ChmodStep(w: World, t: Target, mode: Mode, fault: Fault): (r: Ret<()>)
    ensures r.w.env == w.env && r.w.log == w.log + [Chmod(t, mode)]
    ensures r.err == AttrCheck(w, t, fault)
    ensures r.err.Some? ==> r.w.nodes == w.nodes
    ensures r.err.None? ==>
      var k := KeyOf(w.nodes, t).value;
      r.w.nodes == w.nodes[k := w.nodes[k].(perm := Perms(mode))]
  {
    var w1 := Logged(w, Chmod(t, mode));
    var e := AttrCheck(w, t, fault);
    if e.Some? then Ret(w1, e, ())
    else
      var k := KeyOf(w.nodes, t).value;
      Ret(w1.(nodes := w.nodes[k := w.nodes[k].(perm := Perms(mode))]), None, ())
  }

  /** chflags(2) / fchflags(2). */
  function ChflagsStep(w: World, t: Target, flags: Bits32, fault: Fault): (r: Ret<()>)
    ensures r.w.env == w.env && r.w.log == w.log + [Chflags(t, flags)]
    ensures r.err == AttrCheck(w, t, fault)
    ensures r.err.Some? ==> r.w.nodes == w.nodes
    ensures r.err.None? ==>
      var k := KeyOf(w.nodes, t).value;
      r.w.nodes == w.nodes[k := w.nodes[k].(flags := flags)]
  {
    var w1 := Logged(w, Chflags(t, flags));
    var e := AttrCheck(w, t, fault);
    if e.Some? then Ret(w1, e, ())
    else
      var k := KeyOf(w.nodes, t).value;
      Ret(w1.(nodes := w.nodes[k := w.nodes[k].(flags := flags)]), None, ())
  }

  /** lutimes(2): access and modification times at microsecond precision. */
  function UtimesStep(w: World, t: Target, atv: Timeval, mtv: Timeval, fault: Fault): (r: Ret<()>)
    ensures r.w.env == w.env && r.w.log == w.log + [Utimes(t, atv, mtv)]
    ensures r.err == AttrCheck(w, t, fault)
    ensures r.err.Some? ==> r.w.nodes == w.nodes
    ensures r.err.None? ==>
      var k := KeyOf(w.nodes, t).value;
      r.w.nodes == w.nodes[k := w.nodes[k].(atime := TimeOf(atv), mtime := TimeOf(mtv))]
  {
    var w1 := Logged(w, Utimes(t, atv, mtv));
    var e := AttrCheck(w, t, fault);
    if e.Some? then Ret(w1, e, ())
    else
      var k := KeyOf(w.nodes, t).value;
      Ret(w1.(nodes := w.nodes[k := w.nodes[k].(atime := TimeOf(atv), mtime := TimeOf(mtv))]), None, ())
  }

  /** unlink(2): removes the name itself (a symlink, not what it points to); directories refuse. */
  function UnlinkStep(w: World, p: Path, fault: Fault): (r: Ret<()>)
    ensures r.w.env == w.env && r.w.log == w.log + [Unlink(p)]
    ensures r.err.None? <==> Present(w.nodes, Canon(p)) && w.nodes[Canon(p)].kind != Directory && fault.None?
    ensures r.err.None? ==> r.w.nodes == w.nodes - {Canon(p)}
    ensures r.err.Some? ==> r.w.nodes == w.nodes
  {
    var w1 := Logged(w, Unlink(p));
    var k := Canon(p);
    if !Present(w.nodes, k) then Ret(w1, Some(ENOENT), ())
    else if w.nodes[k].kind == Directory then Ret(w1, Some(EPERM), ())
    else if fault.Some? then Ret(w1, fault, ())
    else Ret(w1.(nodes := w.nodes - {k}), None, ())
  }

  /** The shared shape of the calls that create a name: refuse an empty or
      existing name, let the oracle decide, then add `n`. */
  function Create(w1: World, k: Path, n: Node, fault: Fault): (r: Ret<()>)
    ensures r.w.env == w1.env && r.w.log == w1.log
    ensures r.err.None? <==> Present(r.w.nodes, k) && !Present(w1.nodes, k) && fault.None?
    ensures r.err.None? ==> r.w.nodes == w1.nodes[k := n]
    ensures r.err.Some? ==> r.w.nodes == w1.nodes
    ensures Present(w1.nodes, k) ==> r.err == Some(EEXIST)
    ensures k == "" ==> r.err == Some(ENOENT)
    ensures !Present(w1.nodes, k) && k != "" ==> r.err == fault
  {
    if k == "" then Ret(w1, Some(ENOENT), ())
    else if k in w1.nodes then Ret(w1, Some(EEXIST), ())
    else if fault.Some? then Ret(w1, fault, ())
    else Ret(w1.(nodes := w1.nodes[k := n]), None, ())
  }

  /** mkdir(2): only the nine permission bits of `mode` survive, minus the creation mask. */
  function MkdirStep(w: World, p: Path, mode: Mode, fault: Fault): (r: Ret<()>)
    ensures r.w.env == w.env && r.w.log == w.log + [Mkdir(p, mode)]
    ensures r.err.None? <==> !Present(w.nodes, Canon(p)) && p != "" && fault.None?
    ensures Present(w.nodes, Canon(p)) ==> r.err == Some(EEXIST)
    ensures r.err.None? ==> r.w.nodes == w.nodes[Canon(p) := NewNode(w.env, Directory, CreatedDir(mode, w.env.cmask))]
    ensures r.err.Some? ==> r.w.nodes == w.nodes
    ensures !Present(w.nodes, Canon(p)) && p != "" ==> r.err == fault
  {
    Create(Logged(w, Mkdir(p, mode)), Canon(p), NewNode(w.env, Directory, CreatedDir(mode, w.env.cmask)), fault)
  }

  /** symlink(2). */
  function SymlinkStep(w: World, linkTarget: string, p: Path, fault: Fault): (r: Ret<()>)
    ensures r.w.env == w.env && r.w.log == w.log + [SymlinkCall(linkTarget, p)]
    ensures r.err.None? <==> !Present(w.nodes, Canon(p)) && p != "" && fault.None?
    ensures r.err.None? ==> r.w.nodes == w.nodes[Canon(p) := NewNode(w.env, Symlink, FromBits(ACCESSPERMS & !Bits(w.env.cmask))).(target := linkTarget)]
    ensures r.err.Some? ==> r.w.nodes == w.nodes
  {
    Create(Logged(w, SymlinkCall(linkTarget, p)), Canon(p),
           NewNode(w.env, Symlink, FromBits(ACCESSPERMS & !Bits(w.env.cmask))).(target := linkTarget), fault)
  }

  /** mkfifo(2). */
  function MkfifoStep(w: World, p: Path, mode: Mode, fault: Fault): (r: Ret<()>)
    ensures r.w.env == w.env && r.w.log == w.log + [Mkfifo(p, mode)]
    ensures r.err.None? <==> !Present(w.nodes, Canon(p)) && p != "" && fault.None?
    ensures r.err.None? ==> r.w.nodes == w.nodes[Canon(p) := NewNode(w.env, Fifo, Created(mode, w.env.cmask))]
    ensures r.err.Some? ==> r.w.nodes == w.nodes
  {
    Create(Logged(w, Mkfifo(p, mode)), Canon(p), NewNode(w.env, Fifo, Created(mode, w.env.cmask)), fault)
  }

  /** The device kind a mknod mode asks for. */
  function DeviceKind(mode: Mode): Option<Kind>
  {
    if Bits(mode) & S_IFMT == S_IFCHR then Some(CharDevice)
    else if Bits(mode) & S_IFMT == S_IFBLK then Some(BlockDevice)
    else None
  }

  /** mknod(2): a character or block device; any other file type is EINVAL. */
  function MknodStep(w: World, p: Path, mode: Mode, dev: int, fault: Fault): (r: Ret<()>)
    ensures r.w.env == w.env && r.w.log == w.log + [Mknod(p, mode, dev)]
    ensures r.err.None? <==> !Present(w.nodes, Canon(p)) && p != "" && DeviceKind(mode).Some? && fault.None?
    ensures r.err.None? ==>
      r.w.nodes == w.nodes[Canon(p) := NewNode(w.env, DeviceKind(mode).value, Created(mode, w.env.cmask)).(rdev := dev)]
    ensures r.err.Some? ==> r.w.nodes == w.nodes
  {
    var w1 := Logged(w, Mknod(p, mode, dev));
    match DeviceKind(mode)
    case None => Ret(w1, Some(EINVAL), ())
    case Some(kind) =>
      Create(w1, Canon(p), NewNode(w.env, kind, Created(mode, w.env.cmask)).(rdev := dev), fault)
  }

  /** readlink(2) into a buffer of `size` bytes: a longer target is cut, not refused. */
  function ReadlinkStep(w: World, p: Path, size: nat, fault: Fault): (r: Ret<string>)
    ensures r.w == Logged(w, Readlink(p, size))
    ensures r.err.None? <==> Present(w.nodes, Canon(p)) && w.nodes[Canon(p)].kind == Symlink && fault.None?
    ensures r.err.None? ==>
      var t := w.nodes[Canon(p)].target;
      r.val == t[..Min(size, |t|)]
  {
    var w1 := Logged(w, Readlink(p, size));
    var k := Canon(p);
    if !Present(w.nodes, k) then Ret(w1, Some(ENOENT), "")
    else if w.nodes[k].kind != Symlink then Ret(w1, Some(EINVAL), "")
    else if fault.Some? then Ret(w1, fault, "")
    else
      var t := w.nodes[k].target;
      Ret(w1, None, t[..Min(size, |t|)])
  }

  // ---------------------------------------------------------------------
  // What the attribute calls leave alone

  /** Every node of `w` is still there in `w'`, holding the same bytes. */
  predicate ContentsKept(w: World, w': World)
  {
    forall k :: k in w.nodes ==> k in w'.nodes && w'.nodes[k].content == w.nodes[k].content
  }

  lemma KeptTrans(a: World, b: World, c: World)
    requires ContentsKept(a, b) && ContentsKept(b, c)
    ensures ContentsKept(a, c)
  {
  }

  /** chown, chmod, chflags and utimes change attributes, never bytes, and
      remove no node, whether they succeed or fail. */
  lemma AttrKeepsContents(w: World, t: Target, uid: int, gid: int, mode: Mode, flags: Bits32, atv: Timeval, mtv: Timeval, fault: Fault)
    ensures ContentsKept(w, ChownStep(w, t, uid, gid, fault).w)
    ensures ContentsKept(w, ChmodStep(w, t, mode, fault).w)
    ensures ContentsKept(w, ChflagsStep(w, t, flags, fault).w)
    ensures ContentsKept(w, UtimesStep(w, t, atv, mtv, fault).w)
  {
  }

  // ---------------------------------------------------------------------
  // The filesystem object

  /** The mounted filesystem: its nodes change in place as calls are made,
      and every call is appended to `log`. */
  class FileSystem {
    var nodes: map<Path, Node>
    var log: seq<Call>
    const env: Env

    function State(): World
      reads this
    {
      World(nodes, log, env)
    }

    constructor (nodes0: map<Path, Node>, env0: Env)
      ensures State() == World(nodes0, [], env0)
    {
      nodes, log, env := nodes0, [], env0;
    }

    method Open(p: Path, how: OpenHow, mode: Mode, fault: Fault) returns (err: Option<Errno>, fd: OpenFile)
      modifies this
      ensures State() == OpenStep(old(State()), p, how, mode, fault).w
      ensures err == OpenStep(old(State()), p, how, mode, fault).err
      ensures fd == OpenStep(old(State()), p, how, mode, fault).val
    {
      var r := OpenStep(State(), p, how, mode, fault);
      nodes, log, err, fd := r.w.nodes, r.w.log, r.err, r.val;
    }

    method Read(fd: OpenFile, count: nat, fault: Fault) returns (err: Option<Errno>, fd': OpenFile, data: seq<Byte>)
      modifies this
      ensures State() == ReadStep(old(State()), fd, count, fault).w
      ensures err == ReadStep(old(State()), fd, count, fault).err
      ensures (fd', data) == ReadStep(old(State()), fd, count, fault).val
    {
      var r := ReadStep(State(), fd, count, fault);
      nodes, log, err, fd', data := r.w.nodes, r.w.log, r.err, r.val.0, r.val.1;
    }

    method Write(fd: OpenFile, data: seq<Byte>, fault: WriteFault) returns (err: Option<Errno>, fd': OpenFile, n: nat)
      modifies this
      ensures State() == WriteStep(old(State()), fd, data, fault).w
      ensures err == WriteStep(old(State()), fd, data, fault).err
      ensures (fd', n) == WriteStep(old(State()), fd, data, fault).val
    {
      var r := WriteStep(State(), fd, data, fault);
      nodes, log, err, fd', n := r.w.nodes, r.w.log, r.err, r.val.0, r.val.1;
    }

    method Close(fd: OpenFile, fault: Fault) returns (err: Option<Errno>)
      modifies this
      ensures State() == CloseStep(old(State()), fd, fault).w
      ensures err == CloseStep(old(State()), fd, fault).err
    {
      var r := CloseStep(State(), fd, fault);
      nodes, log, err := r.w.nodes, r.w.log, r.err;
    }

    method Stat(t: Target, fault: Fault) returns (err: Option<Errno>, st: Stat)
      modifies this
      ensures State() == StatStep(old(State()), t, fault).w
      ensures err == StatStep(old(State()), t, fault).err
      ensures st == StatStep(old(State()), t, fault).val
    {
      var r := StatStep(State(), t, fault);
      nodes, log, err, st := r.w.nodes, r.w.log, r.err, r.val;
    }

    method Chown(t: Target, uid: int, gid: int, fault: Fault) returns (err: Option<Errno>)
      modifies this
      ensures State() == ChownStep(old(State()), t, uid, gid, fault).w
      ensures err == ChownStep(old(State()), t, uid, gid, fault).err
    {
      var r := ChownStep(State(), t, uid, gid, fault);
      nodes, log, err := r.w.nodes, r.w.log, r.err;
    }

    method Chmod(t: Target, mode: Mode, fault: Fault) returns (err: Option<Errno>)
      modifies this
      ensures State() == ChmodStep(old(State()), t, mode, fault).w
      ensures err == ChmodStep(old(State()), t, mode, fault).err
    {
      var r := ChmodStep(State(), t, mode, fault);
      nodes, log, err := r.w.nodes, r.w.log, r.err;
    }

    method Chflags(t: Target, flags: Bits32, fault: Fault) returns (err: Option<Errno>)
      modifies this
      ensures State() == ChflagsStep(old(State()), t, flags, fault).w
      ensures err == ChflagsStep(old(State()), t, flags, fault).err
    {
      var r := ChflagsStep(State(), t, flags, fault);
      nodes, log, err := r.w.nodes, r.w.log, r.err;
    }

    method Utimes(t: Target, atv: Timeval, mtv: Timeval, fault: Fault) returns (err: Option<Errno>)
      modifies this
      ensures State() == UtimesStep(old(State()), t, atv, mtv, fault).w
      ensures err == UtimesStep(old(State()), t, atv, mtv, fault).err
    {
      var r := UtimesStep(State(), t, atv, mtv, fault);
      nodes, log, err := r.w.nodes, r.w.log, r.err;
    }

    method Unlink(p: Path, fault: Fault) returns (err: Option<Errno>)
      modifies this
      ensures State() == UnlinkStep(old(State()), p, fault).w
      ensures err == UnlinkStep(old(State()), p, fault).err
    {
      var r := UnlinkStep(State(), p, fault);
      nodes, log, err := r.w.nodes, r.w.log, r.err;
    }

    method Mkdir(p: Path, mode: Mode, fault: Fault) returns (err: Option<Errno>)
      modifies this
      ensures State() == MkdirStep(old(State()), p, mode, fault).w
      ensures err == MkdirStep(old(State()), p, mode, fault).err
    {
      var r := MkdirStep(State(), p, mode, fault);
      nodes, log, err := r.w.nodes, r.w.log, r.err;
    }

    method Symlink(linkTarget: string, p: Path, fault: Fault) returns (err: Option<Errno>)
      modifies this
      ensures State() == SymlinkStep(old(State()), linkTarget, p, fault).w
      ensures err == SymlinkStep(old(State()), linkTarget, p, fault).err
    {
      var r := SymlinkStep(State(), linkTarget, p, fault);
      nodes, log, err := r.w.nodes, r.w.log, r.err;
    }

    method Mkfifo(p: Path, mode: Mode, fault: Fault) returns (err: Option<Errno>)
      modifies this
      ensures State() == MkfifoStep(old(State()), p, mode, fault).w
      ensures err == MkfifoStep(old(State()), p, mode, fault).err
    {
      var r := MkfifoStep(State(), p, mode, fault);
      nodes, log, err := r.w.nodes, r.w.log, r.err;
    }

    method Mknod(p: Path, mode: Mode, dev: int, fault: Fault) returns (err: Option<Errno>)
      modifies this
      ensures State() == MknodStep(old(State()), p, mode, dev, fault).w
      ensures err == MknodStep(old(State()), p, mode, dev, fault).err
    {
      var r := MknodStep(State(), p, mode, dev, fault);
      nodes, log, err := r.w.nodes, r.w.log, r.err;
    }

    method Readlink(p: Path, size: nat, fault: Fault) returns (err: Option<Errno>, target: string)
      modifies this
      ensures State() == ReadlinkStep(old(State()), p, size, fault).w
      ensures err == ReadlinkStep(old(State()), p, size, fault).err
      ensures target == ReadlinkStep(old(State()), p, size, fault).val
    {
      var r := ReadlinkStep(State(), p, size, fault);
      nodes, log, err, target := r.w.nodes, r.w.log, r.err, r.val;
    }
  }
}
