/**
 * fsu_write: copies standard input into a file of the mounted filesystem.
 *
 * fsu_write opens the named file read-write, creating it with 0666 (less the
 * backend's creation mask) when it is missing and never truncating it; with
 * -a every write lands at the end. It then reads standard input in chunks of
 * at most 8192 bytes and writes each chunk, stopping after a failed read, a
 * failed or short write, an empty read (end of input) or while errno holds
 * ENOSPC; it closes the file and returns the number of bytes it counted.
 *
 * The copy loop is the method `Copy`, proved against the spec function
 * `CopyFrom`; the whole call is `FsuWrite` against `WriteSpec`; main is
 * `FsuWriteMain`.
 */
module FsuWrite {
  import opened Optional
  import opened Modes
  import opened FsModel
  import opened Process

  /** The size of the read buffer: every read asks for this many bytes. */
  const BUFSIZE: nat := 8192

  /** The creation mode of the output file, 0666. */
  const OPEN_MODE: Mode := 0x1B6

  /** The answers the oracles give: to the open, to the read and the write of
      each turn of the loop (numbered from 0), and to the close. */
  datatype Faults = Faults(open: Fault, read: nat -> ReadAnswer, write: nat -> WriteFault, close: Fault)

  /** `n` copies of `x`: the sizes of `n` reads of standard input. */
  function Repeat(x: nat, n: nat): (r: seq<nat>)
    ensures |r| == n && forall i :: 0 <= i < n ==> r[i] == x
  {
    if n == 0 then [] else Repeat(x, n - 1) + [x]
  }

  /** The `int` a `size_t` becomes on return: the value modulo 2^32, read as
      a two's-complement 32-bit number. */
  function ToCInt(n: nat): (r: int)
    ensures -0x8000_0000 <= r < 0x8000_0000
    ensures (r - n) % 0x1_0000_0000 == 0
  {
    var m := n % 0x1_0000_0000;
    if m < 0x8000_0000 then m else m - 0x1_0000_0000
  }

  /** A count below 2^31 comes back unchanged. */
  lemma ToCIntSmall(n: nat)
    requires n < 0x8000_0000
    ensures ToCInt(n) == n
  {
  }

  // ---------------------------------------------------------------------
  // The copy loop

  /** Where the copy loop stands when it leaves: the filesystem, the output
      descriptor, the unread input, errno, the bytes that reached the file
      (`out`: the chunks in the order they were read, with only the first
      bytes of a short write), the count fsu_write kept (`total`, which
      leaves out a short write) and the number of reads it made. */
  datatype CopyOut = CopyOut(
    w: World, fd: OpenFile, pending: seq<Byte>, errno: Option<Errno>,
    out: seq<Byte>, total: nat, turns: nat)

  /** The loop from turn `turn` on, with the bytes `out` written so far. */
  function CopyFrom(w: World, fd: OpenFile, pending: seq<Byte>, errno: Option<Errno>,
                    fl: Faults, turn: nat, out: seq<Byte>): (r: CopyOut)
    ensures turn < r.turns && |out| <= r.total <= |r.out|
    decreases |pending|
  {
    var rd := InputRead(pending, BUFSIZE, fl.read(turn));
    if rd.None? then
      CopyOut(w, fd, pending, Some(fl.read(turn).errno), out, |out|, turn + 1)
    else
      var data, rest := pending[..rd.value], pending[rd.value..];
      var wr := WriteStep(w, fd, data, fl.write(turn));
      if wr.err.Some? then
        CopyOut(wr.w, wr.val.0, rest, wr.err, out, |out|, turn + 1)
      else if wr.val.1 != rd.value then
        CopyOut(wr.w, wr.val.0, rest, errno, out + data[..wr.val.1], |out|, turn + 1)
      else if rd.value > 0 && errno != Some(ENOSPC) then
        CopyFrom(wr.w, wr.val.0, rest, errno, fl, turn + 1, out + data)
      else
        CopyOut(wr.w, wr.val.0, rest, errno, out + data, |out + data|, turn + 1)
  }

  /** One turn that writes its whole chunk and carries on. */
  lemma CopyStep(w: World, fd: OpenFile, pending: seq<Byte>, errno: Option<Errno>,
                 fl: Faults, turn: nat, out: seq<Byte>, rd: nat)
    requires InputRead(pending, BUFSIZE, fl.read(turn)) == Some(rd)
    requires WriteStep(w, fd, pending[..rd], fl.write(turn)).err.None?
    requires WriteStep(w, fd, pending[..rd], fl.write(turn)).val.1 == rd
    requires rd > 0 && errno != Some(ENOSPC)
    ensures var wr := WriteStep(w, fd, pending[..rd], fl.write(turn));
      CopyFrom(w, fd, pending, errno, fl, turn, out)
        == CopyFrom(wr.w, wr.val.0, pending[rd..], errno, fl, turn + 1, out + pending[..rd])
  {
  }

  /** The do/while loop of fsu_write, reading standard input into `buf` and
      writing each chunk to `fdout`. */
  method Copy(fs: FileSystem, proc: Proc, stdin: Stdin, fdout: OpenFile, fl: Faults)
    returns (total: nat, fd: OpenFile)
    modifies fs, proc, stdin
    ensures var r := CopyFrom(old(fs.State()), fdout, old(stdin.pending), old(proc.errno), fl, 0, []);
      && fs.State() == r.w && fd == r.fd && total == r.total
      && stdin.pending == r.pending && proc.errno == r.errno
      && stdin.asked == old(stdin.asked) + Repeat(BUFSIZE, r.turns)
    ensures proc.umask == old(proc.umask)
  {
    total, fd := 0, fdout;
    var turn: nat := 0;
    ghost var out: seq<Byte> := [];
    ghost var asked0 := stdin.asked;
    while true
      invariant CopyFrom(fs.State(), fd, stdin.pending, proc.errno, fl, turn, out)
        == CopyFrom(old(fs.State()), fdout, old(stdin.pending), old(proc.errno), fl, 0, [])
      invariant total == |out|
      invariant stdin.asked == asked0 + Repeat(BUFSIZE, turn)
      invariant proc.umask == old(proc.umask)
      decreases |stdin.pending|
    {
      var counted, stop;
      fd, counted, stop, out := CopyTurn(fs, proc, stdin, fd, fl, turn, out);
      assert Repeat(BUFSIZE, turn + 1) == Repeat(BUFSIZE, turn) + [BUFSIZE];
      total, turn := total + counted, turn + 1;
      if stop {
        break;
      }
    }
  }

  /** One turn of the loop: read a chunk into the buffer and write it out.
      `counted` is what the turn adds to the total and `stop` says the loop
      ends; `out'` is `out` and the bytes this turn wrote. */
  method CopyTurn(fs: FileSystem, proc: Proc, stdin: Stdin, fd: OpenFile, fl: Faults, turn: nat, ghost out: seq<Byte>)
    returns (fd': OpenFile, counted: nat, stop: bool, ghost out': seq<Byte>)
    modifies fs, proc, stdin
    ensures stdin.asked == old(stdin.asked) + [BUFSIZE] && proc.umask == old(proc.umask)
    ensures var r := CopyFrom(old(fs.State()), fd, old(stdin.pending), old(proc.errno), fl, turn, out);
      stop ==> r == CopyOut(fs.State(), fd', stdin.pending, proc.errno, out', |out| + counted, turn + 1)
    ensures var r := CopyFrom(old(fs.State()), fd, old(stdin.pending), old(proc.errno), fl, turn, out);
      !stop ==>
        && r == CopyFrom(fs.State(), fd', stdin.pending, proc.errno, fl, turn + 1, out')
        && |out'| == |out| + counted && |stdin.pending| < old(|stdin.pending|)
  {
    ghost var w, pending, errno := fs.State(), stdin.pending, proc.errno;
    var rerr, buf := stdin.Read(BUFSIZE, fl.read(turn));
    fd', counted, out' := fd, 0, out;
    if rerr.Some? {
      proc.SetErrno(rerr);
      return fd', counted, true, out';
    }
    var rd := |buf|;
    var werr, n;
    werr, fd', n := fs.Write(fd, buf, fl.write(turn));
    if werr.Some? {
      proc.SetErrno(werr);
      stop := true;
    } else if n != rd {
      out' := out + buf[..n];
      stop := true;
    } else if !(rd > 0 && proc.errno != Some(ENOSPC)) {
      counted, out', stop := n, out + buf, true;
    } else {
      CopyStep(w, fd, pending, errno, fl, turn, out, rd);
      counted, out', stop := n, out + buf, false;
    }
  }

  // ---------------------------------------------------------------------
  // fsu_write

  /** The outcome of fsu_write: the filesystem, the unread input, errno, the
      number of reads of standard input, the bytes that reached the file,
      the count kept, and the value returned. */
  datatype WriteOut = WriteOut(
    w: World, pending: seq<Byte>, errno: Option<Errno>,
    readCount: nat, out: seq<Byte>, total: nat, rv: int)

  /** fsu_write(STDIN_FILENO, fname, append); `fname` None is a NULL name. */
  function WriteSpec(w: World, pending: seq<Byte>, errno: Option<Errno>,
                     fname: Option<Path>, append: bool, fl: Faults): (r: WriteOut)
    ensures r.total <= |r.out|
    ensures r.readCount == 0 ==> r.rv == -1 && r.out == [] && r.pending == pending
  {
    if fname.None? then WriteOut(w, pending, errno, 0, [], 0, -1)
    else
      var o := OpenStep(w, fname.value, ReadWriteCreate(append), OPEN_MODE, fl.open);
      if o.err.Some? then WriteOut(o.w, pending, o.err, 0, [], 0, -1)
      else
        var c := CopyFrom(o.w, o.val, pending, errno, fl, 0, []);
        var cl := CloseStep(c.w, c.fd, fl.close);
        WriteOut(cl.w, c.pending, if cl.err.Some? then cl.err else c.errno,
                 c.turns, c.out, c.total, ToCInt(c.total))
  }

  /** fsu_write: open, copy, close. */
  method FsuWrite(fs: FileSystem, proc: Proc, stdin: Stdin, fname: Option<Path>, append: bool, fl: Faults)
    returns (rv: int)
    modifies fs, proc, stdin
    ensures var r := WriteSpec(old(fs.State()), old(stdin.pending), old(proc.errno), fname, append, fl);
      && fs.State() == r.w && stdin.pending == r.pending && proc.errno == r.errno && rv == r.rv
      && stdin.asked == old(stdin.asked) + Repeat(BUFSIZE, r.readCount)
    ensures proc.umask == old(proc.umask)
  {
    if fname.None? {
      return -1;
    }
    var err, fdout := fs.Open(fname.value, ReadWriteCreate(append), OPEN_MODE, fl.open);
    if err.Some? {
      proc.SetErrno(err);
      return -1;
    }
    var total, fd := Copy(fs, proc, stdin, fdout, fl);
    var cerr := fs.Close(fd, fl.close);
    proc.SetErrno(cerr);
    rv := ToCInt(total);
  }

  // ---------------------------------------------------------------------
  // Properties of the copy loop

  /** The loop keeps the environment and the descriptor's file, and only
      appends to the log. */
  lemma {:induction false} CopyKeeps(w: World, fd: OpenFile, pending: seq<Byte>, errno: Option<Errno>,
                                     fl: Faults, turn: nat, out: seq<Byte>)
    ensures var r := CopyFrom(w, fd, pending, errno, fl, turn, out);
      r.w.env == w.env && r.fd.node == fd.node && w.log <= r.w.log
    decreases |pending|
  {
    var rd := InputRead(pending, BUFSIZE, fl.read(turn));
    if rd.Some? {
      var wr := WriteStep(w, fd, pending[..rd.value], fl.write(turn));
      if wr.err.None? && wr.val.1 == rd.value && rd.value > 0 && errno != Some(ENOSPC) {
        CopyKeeps(wr.w, wr.val.0, pending[rd.value..], errno, fl, turn + 1, out + pending[..rd.value]);
        var r := CopyFrom(wr.w, wr.val.0, pending[rd.value..], errno, fl, turn + 1, out + pending[..rd.value]);
        assert w.log <= wr.w.log;
        assert r.w.log[..|w.log|] == r.w.log[..|wr.w.log|][..|w.log|];
      }
    }
  }

  /** Whether turn `turn` writes its whole chunk and the loop goes on. */
  predicate Continues(w: World, fd: OpenFile, pending: seq<Byte>, errno: Option<Errno>, fl: Faults, turn: nat)
  {
    var rd := InputRead(pending, BUFSIZE, fl.read(turn));
    && rd.Some? && rd.value > 0 && errno != Some(ENOSPC)
    && var wr := WriteStep(w, fd, pending[..rd.value], fl.write(turn));
       wr.err.None? && wr.val.1 == rd.value
  }

  /** The bytes that reach the file are the input in order: what was
      written before, then leading bytes of the unread input. */
  lemma {:induction false} CopyInput(w: World, fd: OpenFile, pending: seq<Byte>, errno: Option<Errno>,
                                     fl: Faults, turn: nat, out: seq<Byte>)
    ensures CopyFrom(w, fd, pending, errno, fl, turn, out).out <= out + pending
    decreases |pending|
  {
    if Continues(w, fd, pending, errno, fl, turn) {
      var rd := InputRead(pending, BUFSIZE, fl.read(turn)).value;
      var data, rest := pending[..rd], pending[rd..];
      var wr := WriteStep(w, fd, data, fl.write(turn));
      CopyStep(w, fd, pending, errno, fl, turn, out, rd);
      CopyInput(wr.w, wr.val.0, rest, errno, fl, turn + 1, out + data);
      assert (out + data) + rest == out + pending by {
        assert data + rest == pending;
      }
    } else {
      LastTurnInput(w, fd, pending, errno, fl, turn, out);
    }
  }

  /** The last turn writes leading bytes of the input, or nothing. */
  lemma LastTurnInput(w: World, fd: OpenFile, pending: seq<Byte>, errno: Option<Errno>,
                      fl: Faults, turn: nat, out: seq<Byte>)
    requires !Continues(w, fd, pending, errno, fl, turn)
    ensures CopyFrom(w, fd, pending, errno, fl, turn, out).out <= out + pending
  {
    var r := CopyFrom(w, fd, pending, errno, fl, turn, out);
    var rd := InputRead(pending, BUFSIZE, fl.read(turn));
    if rd.None? {
      assert r.out == out;
      AppendPrefix(out, [], pending);
    } else {
      var data := pending[..rd.value];
      var wr := WriteStep(w, fd, data, fl.write(turn));
      var n := wr.val.1;
      assert r.out == out + data[..n] by {
        assert wr.err.Some? ==> n == 0 && data[..n] == [] && out + [] == out;
      }
      assert data[..n] <= pending;
      AppendPrefix(out, data[..n], pending);
    }
  }

  /** The write of the last turn the loop made wrote its whole chunk. */
  predicate LastWriteComplete(fl: Faults, r: CopyOut)
  {
    r.turns > 0 && fl.write(r.turns - 1).Complete?
  }

  /** The loop consumes leading bytes of its input, and the bytes that reach
      the file are those it consumed, less at most one buffer: all of them
      unless the write of the last turn fails or is short. */
  lemma {:induction false} CopyConsumed(w: World, fd: OpenFile, pending: seq<Byte>, errno: Option<Errno>,
                                        fl: Faults, turn: nat, out: seq<Byte>)
    requires Present(w.nodes, fd.node)
    ensures var r := CopyFrom(w, fd, pending, errno, fl, turn, out);
      && |r.pending| <= |pending|
      && var consumed := pending[..|pending| - |r.pending|];
      && pending == consumed + r.pending
      && r.out <= out + consumed
      && |out + consumed| - |r.out| <= BUFSIZE
      && (LastWriteComplete(fl, r) ==> r.out == out + consumed)
    decreases |pending|, 1
  {
    if Continues(w, fd, pending, errno, fl, turn) {
      ConsumedOn(w, fd, pending, errno, fl, turn, out);
    } else {
      LastTurnConsumed(w, fd, pending, errno, fl, turn, out);
    }
  }

  /** CopyConsumed for a turn that writes its whole chunk and carries on. */
  lemma {:induction false} ConsumedOn(w: World, fd: OpenFile, pending: seq<Byte>, errno: Option<Errno>,
                                      fl: Faults, turn: nat, out: seq<Byte>)
    requires Present(w.nodes, fd.node) && Continues(w, fd, pending, errno, fl, turn)
    ensures var r := CopyFrom(w, fd, pending, errno, fl, turn, out);
      && |r.pending| <= |pending|
      && var consumed := pending[..|pending| - |r.pending|];
      && pending == consumed + r.pending
      && r.out <= out + consumed
      && |out + consumed| - |r.out| <= BUFSIZE
      && (LastWriteComplete(fl, r) ==> r.out == out + consumed)
    decreases |pending|, 0
  {
    var turn1 := turn + 1;
    var w1, fd1, data, rest, out1 := ContinuesTo(w, fd, pending, errno, fl, turn, out, turn1);
    CopyConsumed(w1, fd1, rest, errno, fl, turn1, out1);
    var r := CopyFrom(w1, fd1, rest, errno, fl, turn1, out1);
    ConsumedJoin(pending, data, rest, r.pending, out, out1, r.out, LastWriteComplete(fl, r));
  }

  /** A turn that writes its whole chunk consumes it from the input and
      leaves the loop to go on from turn1 with the rest. */
  lemma ContinuesTo(w: World, fd: OpenFile, pending: seq<Byte>, errno: Option<Errno>,
                    fl: Faults, turn: nat, out: seq<Byte>, turn1: nat)
    returns (w1: World, fd1: OpenFile, data: seq<Byte>, rest: seq<Byte>, out1: seq<Byte>)
    requires Present(w.nodes, fd.node) && Continues(w, fd, pending, errno, fl, turn) && turn1 == turn + 1
    ensures Present(w1.nodes, fd1.node) && |rest| < |pending|
    ensures pending == data + rest && out1 == out + data
    ensures CopyFrom(w, fd, pending, errno, fl, turn, out) == CopyFrom(w1, fd1, rest, errno, fl, turn1, out1)
  {
    var rd := InputRead(pending, BUFSIZE, fl.read(turn)).value;
    data, rest := pending[..rd], pending[rd..];
    var wr := WriteStep(w, fd, data, fl.write(turn));
    w1, fd1, out1 := wr.w, wr.val.0, out + data;
    CopyStep(w, fd, pending, errno, fl, turn, out, rd);
  }

  /** What a complete turn consumed, followed by what the loop consumed
      after it, is what the loop consumed from that turn on. */
  lemma ConsumedJoin(pending: seq<Byte>, data: seq<Byte>, rest: seq<Byte>, left: seq<Byte>,
                     out: seq<Byte>, out1: seq<Byte>, written: seq<Byte>, complete: bool)
    requires pending == data + rest && out1 == out + data && |left| <= |rest|
    requires var later := rest[..|rest| - |left|];
      && rest == later + left
      && written <= out1 + later
      && |out1 + later| - |written| <= BUFSIZE
      && (complete ==> written == out1 + later)
    ensures |left| <= |pending|
    ensures var consumed := pending[..|pending| - |left|];
      && pending == consumed + left
      && written <= out + consumed
      && |out + consumed| - |written| <= BUFSIZE
      && (complete ==> written == out + consumed)
  {
    assert pending[..|pending| - |left|] == data + rest[..|rest| - |left|];
  }

  /** CopyConsumed for the turn that ends the loop. */
  lemma LastTurnConsumed(w: World, fd: OpenFile, pending: seq<Byte>, errno: Option<Errno>,
                         fl: Faults, turn: nat, out: seq<Byte>)
    requires Present(w.nodes, fd.node) && !Continues(w, fd, pending, errno, fl, turn)
    ensures var r := CopyFrom(w, fd, pending, errno, fl, turn, out);
      && r.turns == turn + 1
      && |r.pending| <= |pending|
      && var consumed := pending[..|pending| - |r.pending|];
      && pending == consumed + r.pending
      && r.out <= out + consumed
      && |out + consumed| - |r.out| <= BUFSIZE
      && (LastWriteComplete(fl, r) ==> r.out == out + consumed)
  {
    var data, rest, m := LastTurn(w, fd, pending, errno, fl, turn, out);
    assert pending[..|pending| - |rest|] == data;
    assert data[..m] <= data;
    assert data[..|data|] == data;
  }

  /** The turn that ends the loop reads `data` (at most one buffer) ahead
      of `rest` and writes its first m bytes, all of them when its write
      completes. */
  lemma LastTurn(w: World, fd: OpenFile, pending: seq<Byte>, errno: Option<Errno>,
                 fl: Faults, turn: nat, out: seq<Byte>)
    returns (data: seq<Byte>, rest: seq<Byte>, m: nat)
    requires Present(w.nodes, fd.node) && !Continues(w, fd, pending, errno, fl, turn)
    ensures var r := CopyFrom(w, fd, pending, errno, fl, turn, out);
      && pending == data + rest && |data| <= BUFSIZE && m <= |data|
      && r.turns == turn + 1 && r.pending == rest && r.out == out + data[..m]
      && (fl.write(turn).Complete? ==> m == |data|)
  {
    var rd := InputRead(pending, BUFSIZE, fl.read(turn));
    if rd.None? {
      data, rest, m := [], pending, 0;
      assert out + data[..m] == out;
    } else {
      data, rest := pending[..rd.value], pending[rd.value..];
      var wr := WriteStep(w, fd, data, fl.write(turn));
      m := if wr.err.Some? then 0 else wr.val.1;
      assert out + data[..0] == out;
    }
  }

  /** A prefix stays a prefix behind the same bytes. */
  lemma AppendPrefix(a: seq<Byte>, b: seq<Byte>, c: seq<Byte>)
    requires b <= c
    ensures a + b <= a + c
  {
    assert (a + c)[..|a + b|] == a + c[..|b|];
  }

  /** Writing `d1` and then `d2` right after it is writing `d1 + d2`. */
  lemma SpliceSplice(c: seq<Byte>, off: nat, d1: seq<Byte>, d2: seq<Byte>)
    requires off <= |c|
    ensures off + |d1| <= |Splice(c, off, d1)|
    ensures Splice(Splice(c, off, d1), off + |d1|, d2) == Splice(c, off, d1 + d2)
  {
    var s1 := Splice(c, off, d1);
    var lhs := Splice(s1, off + |d1|, d2);
    var rhs := Splice(c, off, d1 + d2);
    assert |lhs| == |rhs|;
    forall i | 0 <= i < |lhs|
      ensures lhs[i] == rhs[i]
    {
      if i < off {
        assert lhs[i] == s1[..off + |d1|][i] == c[..off][i] == rhs[i];
      } else if i < off + |d1| {
        assert lhs[i] == s1[off..off + |d1|][i - off] == d1[i - off];
        assert rhs[i] == rhs[off..off + |d1 + d2|][i - off] == (d1 + d2)[i - off];
      } else if i < off + |d1| + |d2| {
        assert lhs[i] == lhs[off + |d1|..off + |d1| + |d2|][i - off - |d1|] == d2[i - off - |d1|];
        assert rhs[i] == rhs[off..off + |d1 + d2|][i - off] == (d1 + d2)[i - off];
      } else {
        assert lhs[i] == lhs[off + |d1| + |d2|..][i - off - |d1| - |d2|] == s1[i];
        assert s1[i] == s1[off + |d1|..][i - off - |d1|] == c[i];
        assert rhs[i] == rhs[off + |d1| + |d2|..][i - off - |d1| - |d2|] == c[i];
      }
    }
  }

  /** Writing nothing changes nothing. */
  lemma SpliceEmpty(c: seq<Byte>, off: nat)
    requires off <= |c|
    ensures Splice(c, off, []) == c
  {
    assert c[..off] + c[off..] == c;
  }

  /** The file is written in step with `out`: it holds `c0` overwritten from
      `base` by `out`, and the next write lands right after `out` (at the
      end of the file with O_APPEND, at the offset otherwise). */
  predicate InStep(w: World, fd: OpenFile, c0: seq<Byte>, base: nat, out: seq<Byte>)
  {
    && Present(w.nodes, fd.node) && base <= |c0|
    && w.nodes[fd.node].content == Splice(c0, base, out)
    && (if fd.append then base == |c0| else fd.offset == base + |out|)
  }

  /** One write in step stays in step. */
  lemma WriteInStep(w: World, fd: OpenFile, c0: seq<Byte>, base: nat, out: seq<Byte>,
                    data: seq<Byte>, fault: WriteFault)
    requires InStep(w, fd, c0, base, out)
    ensures var wr := WriteStep(w, fd, data, fault);
      wr.err.None? ==> InStep(wr.w, wr.val.0, c0, base, out + data[..wr.val.1])
  {
    var wr := WriteStep(w, fd, data, fault);
    if wr.err.None? {
      SpliceSplice(c0, base, out, data[..wr.val.1]);
    }
  }

  /** The loop started in step ends with the file holding `c0` overwritten
      from `base` by every byte that reached it. */
  lemma {:induction false} CopyWrites(w: World, fd: OpenFile, pending: seq<Byte>, errno: Option<Errno>,
                                      fl: Faults, turn: nat, out: seq<Byte>, c0: seq<Byte>, base: nat)
    requires InStep(w, fd, c0, base, out)
    ensures var r := CopyFrom(w, fd, pending, errno, fl, turn, out);
      Present(r.w.nodes, fd.node) && r.w.nodes[fd.node].content == Splice(c0, base, r.out)
    decreases |pending|
  {
    var rd := InputRead(pending, BUFSIZE, fl.read(turn));
    if rd.Some? {
      var data := pending[..rd.value];
      WriteInStep(w, fd, c0, base, out, data, fl.write(turn));
      var wr := WriteStep(w, fd, data, fl.write(turn));
      if wr.err.None? && wr.val.1 == rd.value && rd.value > 0 && errno != Some(ENOSPC) {
        assert data[..wr.val.1] == data;
        CopyWrites(wr.w, wr.val.0, pending[rd.value..], errno, fl, turn + 1, out + data, c0, base);
      }
    }
  }

  /** The loop changes nothing but the contents of the descriptor's file. */
  lemma {:induction false} CopyFrame(w: World, fd: OpenFile, pending: seq<Byte>, errno: Option<Errno>,
                                     fl: Faults, turn: nat, out: seq<Byte>)
    requires Present(w.nodes, fd.node)
    ensures var r := CopyFrom(w, fd, pending, errno, fl, turn, out);
      && Present(r.w.nodes, fd.node)
      && r.w.nodes == w.nodes[fd.node := w.nodes[fd.node].(content := r.w.nodes[fd.node].content)]
    decreases |pending|
  {
    var k := fd.node;
    var rd := InputRead(pending, BUFSIZE, fl.read(turn));
    if rd.None? {
      assert w.nodes[k := w.nodes[k]] == w.nodes;
    } else {
      var data := pending[..rd.value];
      var wr := WriteStep(w, fd, data, fl.write(turn));
      if wr.err.Some? {
        assert w.nodes[k := w.nodes[k]] == w.nodes;
      } else if wr.val.1 == rd.value && rd.value > 0 && errno != Some(ENOSPC) {
        CopyFrame(wr.w, wr.val.0, pending[rd.value..], errno, fl, turn + 1, out + data);
      }
    }
  }

  /** With every read answering and every write complete, the loop copies
      the whole input: it stops only at the empty read at its end. */
  lemma {:induction false} CopyDrains(w: World, fd: OpenFile, pending: seq<Byte>, errno: Option<Errno>,
                                      fl: Faults, turn: nat, out: seq<Byte>)
    requires Present(w.nodes, fd.node) && errno != Some(ENOSPC)
    requires forall j :: turn <= j ==> fl.read(j).ReadUpTo? && fl.read(j).limit > 0
    requires forall j :: turn <= j ==> fl.write(j).Complete?
    ensures var r := CopyFrom(w, fd, pending, errno, fl, turn, out);
      r.pending == [] && r.out == out + pending && r.total == |r.out| && r.errno == errno
    decreases |pending|
  {
    var rd := InputRead(pending, BUFSIZE, fl.read(turn));
    var data, rest := pending[..rd.value], pending[rd.value..];
    var wr := WriteStep(w, fd, data, fl.write(turn));
    if rd.value > 0 {
      CopyDrains(wr.w, wr.val.0, rest, errno, fl, turn + 1, out + data);
      assert (out + data) + rest == out + pending;
    } else {
      assert pending == [];
      assert data == [] && out + data == out + pending;
    }
  }

  /** Without a short write the count kept is every byte that reached the
      file. */
  lemma {:induction false} CopyCountsAll(w: World, fd: OpenFile, pending: seq<Byte>, errno: Option<Errno>,
                                         fl: Faults, turn: nat, out: seq<Byte>)
    requires forall j :: turn <= j ==> !fl.write(j).Short?
    ensures var r := CopyFrom(w, fd, pending, errno, fl, turn, out);
      r.total == |r.out|
    decreases |pending|
  {
    var rd := InputRead(pending, BUFSIZE, fl.read(turn));
    if rd.Some? {
      var data := pending[..rd.value];
      var wr := WriteStep(w, fd, data, fl.write(turn));
      if wr.err.None? && wr.val.1 == rd.value && rd.value > 0 && errno != Some(ENOSPC) {
        CopyCountsAll(wr.w, wr.val.0, pending[rd.value..], errno, fl, turn + 1, out + data);
      }
    }
  }

  /** The loop leaves after a read that returns nothing: at the end of the
      input only one more read is made and nothing more is written. */
  lemma CopyStopsAtEnd(w: World, fd: OpenFile, errno: Option<Errno>, fl: Faults, turn: nat, out: seq<Byte>)
    ensures var r := CopyFrom(w, fd, [], errno, fl, turn, out);
      r.turns == turn + 1 && r.out == out && r.total == |out|
  {
    var rd := InputRead([], BUFSIZE, fl.read(turn));
    if rd.Some? {
      assert rd.value == 0;
      var wr := WriteStep(w, fd, [], fl.write(turn));
      assert wr.err.None? ==> wr.val.1 == 0;
      assert out + [] == out;
    }
  }

  /** An ENOSPC already in errno when the loop starts ends it after the
      first chunk. */
  lemma CopyStaleNospc(w: World, fd: OpenFile, pending: seq<Byte>, fl: Faults, turn: nat, out: seq<Byte>)
    ensures CopyFrom(w, fd, pending, Some(ENOSPC), fl, turn, out).turns == turn + 1
  {
  }

  // ---------------------------------------------------------------------
  // Properties of fsu_write

  /** Nothing is read, and -1 is returned, exactly when the name is NULL or
      the open fails; then no node changes and nothing is closed. */
  lemma WriteNoRead(w: World, pending: seq<Byte>, errno: Option<Errno>,
                    fname: Option<Path>, append: bool, fl: Faults)
    ensures var r := WriteSpec(w, pending, errno, fname, append, fl);
      r.readCount == 0 <==>
        fname.None? || OpenStep(w, fname.value, ReadWriteCreate(append), OPEN_MODE, fl.open).err.Some?
    ensures var r := WriteSpec(w, pending, errno, fname, append, fl);
      r.readCount == 0 ==> r.w.nodes == w.nodes
    ensures var r := WriteSpec(w, pending, errno, fname, append, fl);
      fname.Some? && r.readCount == 0 ==>
        r.w.log == w.log + [Open(fname.value, ReadWriteCreate(append), OPEN_MODE)]
  {
  }

  /** After a successful open the file holds its old contents overwritten
      from offset 0, or extended at the end with -a, by the bytes that
      reached it, which are leading bytes of standard input: it is never
      truncated, and a new file starts empty. */
  lemma WriteContent(w: World, pending: seq<Byte>, errno: Option<Errno>,
                     name: Path, append: bool, fl: Faults)
    requires OpenStep(w, name, ReadWriteCreate(append), OPEN_MODE, fl.open).err.None?
    ensures var o := OpenStep(w, name, ReadWriteCreate(append), OPEN_MODE, fl.open);
      var k := o.val.node;
      var c0 := if Present(w.nodes, k) then w.nodes[k].content else [];
      var r := WriteSpec(w, pending, errno, Some(name), append, fl);
      && Present(r.w.nodes, k)
      && r.w.nodes[k].content == Splice(c0, if append then |c0| else 0, r.out)
      && r.out <= pending
  {
    var o := OpenStep(w, name, ReadWriteCreate(append), OPEN_MODE, fl.open);
    var c0 := o.w.nodes[o.val.node].content;
    var base := if append then |c0| else 0;
    SpliceEmpty(c0, base);
    CopyWrites(o.w, o.val, pending, errno, fl, 0, [], c0, base);
    CopyInput(o.w, o.val, pending, errno, fl, 0, []);
    assert [] + pending == pending;
  }

  /** After a successful open fsu_write consumes leading bytes of standard
      input; the file receives those bytes less at most one buffer, and all
      of them unless the write of the last read fails or is short. */
  lemma WriteConsumed(w: World, pending: seq<Byte>, errno: Option<Errno>,
                      name: Path, append: bool, fl: Faults)
    requires OpenStep(w, name, ReadWriteCreate(append), OPEN_MODE, fl.open).err.None?
    ensures var r := WriteSpec(w, pending, errno, Some(name), append, fl);
      && |r.pending| <= |pending|
      && var consumed := pending[..|pending| - |r.pending|];
         && pending == consumed + r.pending
         && r.out <= consumed && |consumed| - |r.out| <= BUFSIZE
         && (fl.write(r.readCount - 1).Complete? ==> r.out == consumed)
  {
    var o := OpenStep(w, name, ReadWriteCreate(append), OPEN_MODE, fl.open);
    CopyConsumed(o.w, o.val, pending, errno, fl, 0, []);
    var c := CopyFrom(o.w, o.val, pending, errno, fl, 0, []);
    var r := WriteSpec(w, pending, errno, Some(name), append, fl);
    assert r.pending == c.pending && r.out == c.out && r.readCount == c.turns;
    assert LastWriteComplete(fl, c) == fl.write(r.readCount - 1).Complete?;
  }

  /** fsu_write changes no node but the file it opened, and of that file
      only the contents; a missing file is created as a regular file with
      mode 0666 less the creation mask. */
  lemma WriteFrame(w: World, pending: seq<Byte>, errno: Option<Errno>,
                   name: Path, append: bool, fl: Faults)
    requires OpenStep(w, name, ReadWriteCreate(append), OPEN_MODE, fl.open).err.None?
    ensures var o := OpenStep(w, name, ReadWriteCreate(append), OPEN_MODE, fl.open);
      var k := o.val.node;
      var r := WriteSpec(w, pending, errno, Some(name), append, fl);
      && Present(r.w.nodes, k)
      && r.w.nodes == w.nodes[k := r.w.nodes[k]]
      && (Present(w.nodes, k) ==> r.w.nodes[k] == w.nodes[k].(content := r.w.nodes[k].content))
      && (!Present(w.nodes, k) ==>
            r.w.nodes[k] == NewNode(w.env, Regular, Created(OPEN_MODE, w.env.cmask)).(content := r.w.nodes[k].content))
  {
    var o := OpenStep(w, name, ReadWriteCreate(append), OPEN_MODE, fl.open);
    CopyFrame(o.w, o.val, pending, errno, fl, 0, []);
  }

  /** After a successful open the descriptor is closed, whatever ended the
      loop: the last call fsu_write makes is the close of the opened file. */
  lemma WriteCloses(w: World, pending: seq<Byte>, errno: Option<Errno>,
                    name: Path, append: bool, fl: Faults)
    requires OpenStep(w, name, ReadWriteCreate(append), OPEN_MODE, fl.open).err.None?
    ensures var o := OpenStep(w, name, ReadWriteCreate(append), OPEN_MODE, fl.open);
      var r := WriteSpec(w, pending, errno, Some(name), append, fl);
      && o.w.log <= r.w.log
      && r.w.log[|r.w.log| - 1] == Close(o.val.node)
  {
    var o := OpenStep(w, name, ReadWriteCreate(append), OPEN_MODE, fl.open);
    CopyKeeps(o.w, o.val, pending, errno, fl, 0, []);
  }

  /** The value returned is the count kept, as an int; without a short
      write that is every byte that reached the file, and below 2^31 bytes
      of input it is exact. */
  lemma WriteReturnsTotal(w: World, pending: seq<Byte>, errno: Option<Errno>,
                          name: Path, append: bool, fl: Faults)
    requires OpenStep(w, name, ReadWriteCreate(append), OPEN_MODE, fl.open).err.None?
    ensures var r := WriteSpec(w, pending, errno, Some(name), append, fl);
      && r.rv == ToCInt(r.total)
      && ((forall j :: !fl.write(j).Short?) ==> r.total == |r.out|)
      && (|pending| < 0x8000_0000 ==> r.rv == r.total)
  {
    var o := OpenStep(w, name, ReadWriteCreate(append), OPEN_MODE, fl.open);
    var r := WriteSpec(w, pending, errno, Some(name), append, fl);
    if forall j :: !fl.write(j).Short? {
      CopyCountsAll(o.w, o.val, pending, errno, fl, 0, []);
    }
    CopyInput(o.w, o.val, pending, errno, fl, 0, []);
    assert [] + pending == pending;
    if |pending| < 0x8000_0000 {
      ToCIntSmall(r.total);
    }
  }

  /** With every read and write succeeding, the whole input is copied and
      its length returned. */
  lemma WriteCopiesAll(w: World, pending: seq<Byte>, errno: Option<Errno>,
                       name: Path, append: bool, fl: Faults)
    requires OpenStep(w, name, ReadWriteCreate(append), OPEN_MODE, fl.open).err.None?
    requires errno != Some(ENOSPC)
    requires forall j :: fl.read(j).ReadUpTo? && fl.read(j).limit > 0
    requires forall j :: fl.write(j).Complete?
    ensures var r := WriteSpec(w, pending, errno, Some(name), append, fl);
      r.pending == [] && r.out == pending && r.total == |pending| && r.rv == ToCInt(|pending|)
  {
    var o := OpenStep(w, name, ReadWriteCreate(append), OPEN_MODE, fl.open);
    CopyDrains(o.w, o.val, pending, errno, fl, 0, []);
    assert [] + pending == pending;
  }

  // ---------------------------------------------------------------------
  // main

  /** The exit status main returns for fsu_write's result, as written:
      `rv != 0`. */
  function WriteStatus(rv: int): (s: int)
    ensures s == EXIT_SUCCESS || s == EXIT_FAILURE
  {
    if rv != 0 then EXIT_FAILURE else EXIT_SUCCESS
  }

  /** The exit status main evidently means: failure when fsu_write reports
      an error (-1). */
  function WriteStatusIntended(rv: int): (s: int)
    ensures s == EXIT_SUCCESS || s == EXIT_FAILURE
  {
    if rv < 0 then EXIT_FAILURE else EXIT_SUCCESS
  }

  /** As written, a run that copies a non-empty input in full exits with
      failure; the intended status is success. */
  lemma CopiedInputExitsFailure(w: World, pending: seq<Byte>, errno: Option<Errno>,
                                name: Path, append: bool, fl: Faults)
    requires OpenStep(w, name, ReadWriteCreate(append), OPEN_MODE, fl.open).err.None?
    requires errno != Some(ENOSPC)
    requires forall j :: fl.read(j).ReadUpTo? && fl.read(j).limit > 0
    requires forall j :: fl.write(j).Complete?
    requires 0 < |pending| < 0x8000_0000
    ensures var r := WriteSpec(w, pending, errno, Some(name), append, fl);
      && r.rv == |pending|
      && WriteStatus(r.rv) == EXIT_FAILURE
      && WriteStatusIntended(r.rv) == EXIT_SUCCESS
  {
    WriteCopiesAll(w, pending, errno, name, append, fl);
    ToCIntSmall(|pending|);
  }

  /** With the intended status, main fails exactly when fsu_write could not
      open the file (for inputs below 2^31 bytes, whose count cannot wrap). */
  lemma IntendedStatusReportsOpen(w: World, pending: seq<Byte>, errno: Option<Errno>,
                                  name: Path, append: bool, fl: Faults)
    requires |pending| < 0x8000_0000
    ensures var r := WriteSpec(w, pending, errno, Some(name), append, fl);
      WriteStatusIntended(r.rv) == EXIT_FAILURE <==>
        OpenStep(w, name, ReadWriteCreate(append), OPEN_MODE, fl.open).err.Some?
  {
    if OpenStep(w, name, ReadWriteCreate(append), OPEN_MODE, fl.open).err.None? {
      WriteReturnsTotal(w, pending, errno, name, append, fl);
    }
  }

  /** main after fsu_mount and getopt: `operands` are the arguments left
      after the options, `append` is -a. Without an operand it prints the
      usage and exits with failure; otherwise it writes standard input to
      the first operand and exits with failure when that reports an error
      (the corrected status, see WriteStatusIntended). */
  method FsuWriteMain(fs: FileSystem, proc: Proc, stdin: Stdin, operands: seq<Path>, append: bool, fl: Faults)
    returns (status: int)
    modifies fs, proc, stdin
    ensures |operands| == 0 ==>
      && status == EXIT_FAILURE && fs.State() == old(fs.State())
      && stdin.pending == old(stdin.pending) && stdin.asked == old(stdin.asked)
    ensures |operands| > 0 ==>
      var r := WriteSpec(old(fs.State()), old(stdin.pending), old(proc.errno), Some(operands[0]), append, fl);
      && fs.State() == r.w && stdin.pending == r.pending
      && stdin.asked == old(stdin.asked) + Repeat(BUFSIZE, r.readCount)
      && status == WriteStatusIntended(r.rv)
  {
    if |operands| == 0 {
      return EXIT_FAILURE;
    }
    var rv := FsuWrite(fs, proc, stdin, Some(operands[0]), append, fl);
    status := WriteStatusIntended(rv);
  }
}
