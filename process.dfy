/**
 * The host process the utilities run in: its file-mode creation mask
 * (umask(2)), the errno a failed call leaves behind, and standard input.
 *
 * These belong to the host, not to the mounted filesystem: mkdir reads and
 * restores the process umask around its own masking, and fsu_write reads
 * standard input with read(2) and looks at errno after every turn.
 */
module Process {
  import opened Optional
  import opened Modes
  import opened FsModel

  /** The status exit(3) reports: success, or failure. */
  const EXIT_SUCCESS: int := 0
  const EXIT_FAILURE: int := 1

  /** The process: its umask and the value of errno (None: 0). */
  class Proc {
    var umask: Mode
    var errno: Option<Errno>

    /** A umask only ever holds permission bits. */
    predicate Valid()
      reads this
    {
      Bits(umask) & !ACCESSPERMS == 0
    }

    constructor (umask0: Mode, errno0: Option<Errno>)
      requires Bits(umask0) & !ACCESSPERMS == 0
      ensures Valid() && umask == umask0 && errno == errno0
    {
      umask, errno := umask0, errno0;
    }

    /** umask(2): installs `cmask` and returns the previous mask; it never fails. */
    method Umask(cmask: Mode) returns (previous: Mode)
      requires Bits(cmask) & !ACCESSPERMS == 0
      modifies this
      ensures previous == old(umask) && umask == cmask && errno == old(errno)
      ensures Valid()
    {
      previous := umask;
      umask := cmask;
    }

    /** What a failing call does to errno; a successful one leaves it alone. */
    method SetErrno(err: Option<Errno>)
      modifies this
      ensures umask == old(umask)
      ensures errno == if err.Some? then err else old(errno)
    {
      if err.Some? {
        errno := err;
      }
    }
  }

  /** The oracle's answer for one read(2) of standard input: an error, or at
      most `limit` bytes (a pipe or a terminal may return fewer than asked,
      and a terminal may report end of input, 0, with more to come). */
  datatype ReadAnswer = ReadFails(errno: Errno) | ReadUpTo(limit: nat)

  /** The number of bytes one read of `count` returns, or None on an error. */
  function InputRead(pending: seq<Byte>, count: nat, answer: ReadAnswer): (r: Option<nat>)
    ensures r.Some? ==> r.value <= count && r.value <= |pending|
    ensures r.None? <==> answer.ReadFails?
    ensures answer.ReadUpTo? && count > 0 && |pending| > 0 && answer.limit > 0 ==> r.value > 0
  {
    if answer.ReadFails? then None
    else Some(Min(Min(count, |pending|), answer.limit))
  }

  /** Standard input: the bytes not yet read, and the size of every read asked of it. */
  class Stdin {
    var pending: seq<Byte>
    var asked: seq<nat>

    constructor (input: seq<Byte>)
      ensures pending == input && asked == []
    {
      pending, asked := input, [];
    }

    /** read(2) of up to `count` bytes: the next bytes of the input in order. */
    method Read(count: nat, answer: ReadAnswer) returns (err: Option<Errno>, data: seq<Byte>)
      modifies this
      ensures asked == old(asked) + [count]
      ensures var r := InputRead(old(pending), count, answer);
        && (r.None? ==> err == Some(answer.errno) && data == [] && pending == old(pending))
        && (r.Some? ==> err.None? && data == old(pending)[..r.value] && pending == old(pending)[r.value..])
    {
      asked := asked + [count];
      var r := InputRead(pending, count, answer);
      if r.None? {
        return Some(answer.errno), [];
      }
      err, data := None, pending[..r.value];
      pending := pending[r.value..];
    }
  }
}
