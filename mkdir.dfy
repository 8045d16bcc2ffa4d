/**
 * The mkdir utility (src/mkdir.c): builddirs walks a path name left to
 * right and creates every prefix that ends a component, fsu_mkpath runs it
 * and then changes the mode of the whole path, and main creates each
 * argument, with or without -p, and folds the outcomes into its exit status.
 */
module Mkdir {
  import opened Optional
  import opened Modes
  import opened FsModel
  import opened Process

  const NUL: char := '\0'

  // ---------------------------------------------------------------------
  // Scanning a path name

  /** strspn(p + i, "/"): the index just past the run of slashes at i. */
  function SkipSlashes(p: string, i: nat): (j: nat)
    requires i <= |p|
    ensures i <= j <= |p| && (j < |p| ==> p[j] != '/')
    decreases |p| - i
  {
    if i < |p| && p[i] == '/' then SkipSlashes(p, i + 1) else i
  }

  /** strcspn(p + i, "/"): the index just past the run of other characters at i. */
  function SkipName(p: string, i: nat): (j: nat)
    requires i <= |p|
    ensures i <= j <= |p| && (j < |p| ==> p[j] == '/')
    ensures j > i ==> p[j - 1] != '/'
    decreases |p| - i
  {
    if i < |p| && p[i] != '/' then SkipName(p, i + 1) else i
  }

  /** Where builddirs cuts the path next: past the slashes, then past the name. */
  function NextEnd(p: string, i: nat): (e: nat)
    requires i <= |p|
    ensures i <= e <= |p|
    ensures e < |p| ==> i < e && p[e] == '/' && p[e - 1] != '/'
  {
    SkipName(p, SkipSlashes(p, i))
  }

  /** The ends of the prefixes builddirs hands to mkdir, from index i on. */
  function Ends(p: string, i: nat): (es: seq<nat>)
    requires i <= |p|
    ensures |es| >= 1 && es[|es| - 1] == |p|
    decreases |p| - i
  {
    var e := NextEnd(p, i);
    if e == |p| then [e] else [e] + Ends(p, e)
  }

  /** The mkdir calls for the prefixes ending at `es`. */
  function MkdirCalls(p: string, es: seq<nat>, m: Mode): (r: seq<Call>)
    ensures |r| == |es|
  {
    if |es| == 0 then [] else [Mkdir(p[..Min(es[0], |p|)], m)] + MkdirCalls(p, es[1..], m)
  }

  /** The prefixes grow strictly, the last one is the whole path, and every
      other one stops at the end of a component, just before a slash. */
  lemma {:induction false} EndsShape(p: string, i: nat)
    requires i <= |p|
    ensures var es := Ends(p, i);
      && i <= es[0] && (i < |p| ==> i < es[0])
      && (forall j :: 0 <= j < |es| - 1 ==> es[j] < es[j + 1])
      && (forall j :: 0 <= j < |es| ==> es[j] <= |p|)
      && (forall j :: 0 <= j < |es| - 1 ==> 0 < es[j] < |p| && p[es[j]] == '/' && p[es[j] - 1] != '/')
    decreases |p| - i
  {
    var e := NextEnd(p, i);
    if e < |p| {
      EndsShape(p, e);
    }
  }

  /** The C string a buffer holds: its characters up to the first NUL. */
  function CString(a: seq<char>): (s: string)
    ensures NUL !in s && |s| <= |a|
  {
    if |a| == 0 || a[0] == NUL then [] else [a[0]] + CString(a[1..])
  }

  /** A NUL written right after a prefix ends the C string there. */
  lemma {:induction false} CStringCut(s: string, rest: seq<char>)
    requires NUL !in s
    ensures CString(s + [NUL] + rest) == s
  {
    if |s| > 0 {
      assert (s + [NUL] + rest)[1..] == s[1..] + [NUL] + rest;
      CStringCut(s[1..], rest);
    }
  }

  // ---------------------------------------------------------------------
  // builddirs

  /** mode & ~mask. */
  function Masked(m: Mode, mask: Mode): Mode { FromBits(Bits(m) & !Bits(mask)) }

  /** What builddirs leaves: the world, its return value and errno. */
  datatype BuildOut = BuildOut(w: World, rv: int, errno: Option<Errno>)

  /** builddirs' loop from index i: mkdir the next prefix, count EEXIST
      (as errno shows it) as success, stop on a failure or after the whole
      path, else go on. `f(k)` is the oracle's answer for the k-th mkdir. */
  function BuildFrom(w: World, p: string, i: nat, m: Mode, errno: Option<Errno>, f: nat -> Fault, k: nat): (r: BuildOut)
    requires i <= |p|
    ensures r.rv == 0 || r.rv == -1
    decreases |p| - i
  {
    var e := NextEnd(p, i);
    var c := MkdirStep(w, p[..e], m, f(k));
    var errno' := if c.err.Some? then c.err else errno;
    var rv := if errno' == Some(EEXIST) then 0 else if c.err.Some? then -1 else 0;
    if rv == -1 || e == |p| then BuildOut(c.w, rv, errno')
    else BuildFrom(c.w, p, e, m, errno', f, k + 1)
  }

  /** builddirs: fails with ENOMEM when the copy of the path cannot be
      made, else scans the copy with every mkdir given mode & ~umask. */
  function BuildDirsSpec(w: World, p: string, mode: Mode, umask: Mode, errno: Option<Errno>, dupFails: bool, f: nat -> Fault): BuildOut
  {
    if dupFails then BuildOut(w, -1, Some(ENOMEM))
    else BuildFrom(w, p, 0, Masked(mode, umask), errno, f, 0)
  }

  /** builddirs. The process umask is read by setting it to 0 and put back
      at once; the scan works on a private copy of the path whose slashes
      are cut to NUL one at a time and restored. */
  method BuildDirs(fs: FileSystem, proc: Proc, pathname: string, mode: Mode, dupFails: bool, f: nat -> Fault)
    returns (rv: int)
    requires proc.Valid() && NUL !in pathname
    modifies fs, proc
    ensures proc.Valid() && proc.umask == old(proc.umask)
    ensures var r := BuildDirsSpec(old(fs.State()), pathname, mode, old(proc.umask), old(proc.errno), dupFails, f);
      fs.State() == r.w && rv == r.rv && proc.errno == r.errno
  {
    var mask := proc.Umask(0);
    var unused := proc.Umask(mask);
    if dupFails {
      proc.errno := Some(ENOMEM);
      return -1;
    }
    rv := Scan(fs, proc, pathname, Masked(mode, mask), f);
  }

  /** builddirs' loop over its private copy of the path. */
  method Scan(fs: FileSystem, proc: Proc, pathname: string, m: Mode, f: nat -> Fault) returns (rv: int)
    requires proc.Valid() && NUL !in pathname
    modifies fs, proc
    ensures proc.Valid() && proc.umask == old(proc.umask)
    ensures var r := BuildFrom(old(fs.State()), pathname, 0, m, old(proc.errno), f, 0);
      fs.State() == r.w && rv == r.rv && proc.errno == r.errno
  {
    ghost var target := BuildFrom(fs.State(), pathname, 0, m, proc.errno, f, 0);
    var buf := new char[|pathname| + 1](j => if 0 <= j < |pathname| then pathname[j] else NUL);
    assert buf[..] == pathname + [NUL];
    var f2, k, end := 0, 0, false;
    while true
      invariant f2 <= |pathname| && buf.Length == |pathname| + 1 && !end
      invariant buf[..] == pathname + [NUL]
      invariant proc.Valid() && proc.umask == old(proc.umask)
      invariant BuildFrom(fs.State(), pathname, f2, m, proc.errno, f, k) == target
      decreases |pathname| - f2
    {
      ghost var w, e0, i := fs.State(), proc.errno, f2;
      f2, end := NextComponent(buf, pathname, f2);
      ghost var cut := buf[..];
      CutBuffer(pathname, f2, cut);
      rv := MkdirPrefix(fs, proc, CString(buf[..]), m, f(k));
      assert buf[..] == cut;
      ghost var c := MkdirStep(w, pathname[..f2], m, f(k));
      BuildStep(w, pathname, i, m, e0, f, k, f2, c, proc.errno, rv);
      if rv == -1 || buf[f2] != NUL || end {
        assert target == BuildOut(fs.State(), rv, proc.errno);
        break;
      }
      buf[f2] := '/';
      RestoreCut(pathname + [NUL], f2);
      k := k + 1;
    }
  }

  /** Finds the end of the next component from `from` (past the slashes,
      then past the name) and cuts the buffer there with a NUL, unless the
      path ends there. */
  method NextComponent(buf: array<char>, pathname: string, from: nat) returns (f2: nat, end: bool)
    requires NUL !in pathname && from <= |pathname| && buf[..] == pathname + [NUL]
    modifies buf
    ensures f2 == NextEnd(pathname, from) && (end <==> f2 == |pathname|)
    ensures buf[..] == (pathname + [NUL])[f2 := NUL]
  {
    assert buf[..|pathname|] == pathname;
    f2 := SkipName(buf[..|pathname|], SkipSlashes(buf[..|pathname|], from));
    assert buf[f2] == (pathname + [NUL])[f2];
    end := false;
    if buf[f2] == NUL {
      end := true;
    } else {
      assert f2 != |pathname| by { assert buf[|pathname|] == (pathname + [NUL])[|pathname|]; }
      buf[f2] := NUL;
    }
  }

  /** The mkdir of one prefix: -1 on failure, but 0 whenever errno then
      holds EEXIST. */
  method MkdirPrefix(fs: FileSystem, proc: Proc, prefix: Path, m: Mode, fault: Fault) returns (rv: int)
    modifies fs, proc
    ensures var c := MkdirStep(old(fs.State()), prefix, m, fault);
      && fs.State() == c.w
      && proc.errno == (if c.err.Some? then c.err else old(proc.errno))
      && rv == (if proc.errno == Some(EEXIST) then 0 else if c.err.Some? then -1 else 0)
    ensures proc.umask == old(proc.umask)
  {
    var err := fs.Mkdir(prefix, m, fault);
    proc.SetErrno(err);
    rv := if err.Some? then -1 else 0;
    if proc.errno == Some(EEXIST) {
      rv := 0;
    }
  }

  /** One turn of builddirs' loop, unfolded. */
  lemma BuildStep(w: World, p: string, i: nat, m: Mode, errno: Option<Errno>, f: nat -> Fault, k: nat,
                  e: nat, c: Ret<()>, errno': Option<Errno>, rv: int)
    requires i <= |p| && e == NextEnd(p, i) && c == MkdirStep(w, p[..e], m, f(k))
    requires errno' == (if c.err.Some? then c.err else errno)
    requires rv == (if errno' == Some(EEXIST) then 0 else if c.err.Some? then -1 else 0)
    ensures rv == -1 || e == |p| ==> BuildFrom(w, p, i, m, errno, f, k) == BuildOut(c.w, rv, errno')
    ensures !(rv == -1 || e == |p|) ==> BuildFrom(w, p, i, m, errno, f, k) == BuildFrom(c.w, p, e, m, errno', f, k + 1)
  {
  }

  /** Putting the slash back where it was cut restores the buffer. */
  lemma RestoreCut(full: seq<char>, f2: nat)
    requires f2 < |full| && full[f2] == '/'
    ensures full[f2 := NUL][f2 := '/'] == full
  {
  }

  /** The buffer after the cut at `f2` holds the prefix as its C string. */
  lemma CutBuffer(pathname: string, f2: nat, b: seq<char>)
    requires NUL !in pathname && f2 <= |pathname| && b == (pathname + [NUL])[f2 := NUL]
    ensures CString(b) == pathname[..f2]
  {
    assert b == pathname[..f2] + [NUL] + b[f2 + 1..];
    CStringCut(pathname[..f2], b[f2 + 1..]);
  }

  /** builddirs makes one mkdir call per prefix up to the one that failed,
      and reaches the whole path whenever it returns 0. */
  lemma {:induction false} BuildCount(w: World, p: string, i: nat, m: Mode, errno: Option<Errno>, f: nat -> Fault, k: nat)
    requires i <= |p|
    ensures var r := BuildFrom(w, p, i, m, errno, f, k);
      var n := |r.w.log| - |w.log|;
      && 1 <= n <= |Ends(p, i)|
      && (r.rv == 0 ==> n == |Ends(p, i)|)
    decreases |p| - i
  {
    var e := NextEnd(p, i);
    var c := MkdirStep(w, p[..e], m, f(k));
    var errno' := if c.err.Some? then c.err else errno;
    var rv := if errno' == Some(EEXIST) then 0 else if c.err.Some? then -1 else 0;
    if !(rv == -1 || e == |p|) {
      BuildCount(c.w, p, e, m, errno', f, k + 1);
      assert |Ends(p, i)| == 1 + |Ends(p, e)|;
    }
  }

  /** builddirs calls mkdir on the prefixes in order, each with mode & ~umask:
      the calls it makes are a prefix of the calls for all the prefixes. */
  lemma {:induction false} BuildCalls(w: World, p: string, i: nat, m: Mode, errno: Option<Errno>, f: nat -> Fault, k: nat)
    requires i <= |p|
    ensures BuildFrom(w, p, i, m, errno, f, k).w.log <= w.log + MkdirCalls(p, Ends(p, i), m)
    decreases |p| - i
  {
    var e := NextEnd(p, i);
    var c := MkdirStep(w, p[..e], m, f(k));
    var errno' := if c.err.Some? then c.err else errno;
    var es := Ends(p, i);
    var rv := if errno' == Some(EEXIST) then 0 else if c.err.Some? then -1 else 0;
    assert MkdirCalls(p, es, m) == [Mkdir(p[..e], m)] + MkdirCalls(p, es[1..], m);
    if !(rv == -1 || e == |p|) {
      BuildCalls(c.w, p, e, m, errno', f, k + 1);
      assert es[1..] == Ends(p, e);
      PrefixAppend(w.log, Mkdir(p[..e], m), c.w.log, MkdirCalls(p, es[1..], m), BuildFrom(c.w, p, e, m, errno', f, k + 1).w.log);
    }
  }

  /** A prefix of one call appended with some more is a prefix of them all appended. */
  lemma PrefixAppend(b: seq<Call>, x: Call, a: seq<Call>, d: seq<Call>, c: seq<Call>)
    requires a == b + [x] && c <= a + d
    ensures c <= b + ([x] + d)
  {
    assert a + d == b + ([x] + d);
  }

  /** builddirs returns -1 only with an error other than EEXIST in errno. */
  lemma {:induction false} BuildFailure(w: World, p: string, i: nat, m: Mode, errno: Option<Errno>, f: nat -> Fault, k: nat)
    requires i <= |p|
    ensures var r := BuildFrom(w, p, i, m, errno, f, k);
      r.rv == -1 ==> r.errno.Some? && r.errno != Some(EEXIST)
    decreases |p| - i
  {
    var e := NextEnd(p, i);
    var c := MkdirStep(w, p[..e], m, f(k));
    var errno' := if c.err.Some? then c.err else errno;
    var rv := if errno' == Some(EEXIST) then 0 else if c.err.Some? then -1 else 0;
    if !(rv == -1 || e == |p|) {
      BuildFailure(c.w, p, e, m, errno', f, k + 1);
    }
  }

  /** The name the prefix ending at es[l] denotes. */
  function PrefixName(p: string, es: seq<nat>, l: nat): Path
    requires l < |es|
  {
    Canon(p[..Min(es[l], |p|)])
  }

  /** builddirs stops at the first refusal: when the mkdirs numbered k to
      n-1 go through (each prefix is made or already there) and mkdir
      number n, of a prefix whose name no node has and no earlier prefix
      denotes, is refused with an error other than EEXIST, builddirs
      returns -1 with that error in errno, having issued exactly the
      mkdirs up to that one; when it is the first one (n == k), nothing is
      created. */
  lemma BuildStopsAt(w: World, p: string, i: nat, m: Mode, errno: Option<Errno>, f: nat -> Fault, k: nat, n: nat, e: Errno)
    requires i <= |p| && p != "" && k <= n < k + |Ends(p, i)|
    requires forall l :: k <= l < n ==> f(l).None?
    requires f(n) == Some(e) && e != EEXIST
    requires !Present(w.nodes, PrefixName(p, Ends(p, i), n - k))
    requires forall l :: 0 <= l < n - k ==> PrefixName(p, Ends(p, i), l) != PrefixName(p, Ends(p, i), n - k)
    ensures var r := BuildFrom(w, p, i, m, errno, f, k);
      && r.rv == -1 && r.errno == Some(e)
      && r.w.log == w.log + MkdirCalls(p, Ends(p, i)[..n - k + 1], m)
      && (n == k ==> r.w.nodes == w.nodes)
  {
    var es := Ends(p, i);
    var t := es[n - k];
    var q := PrefixName(p, es, n - k);
    var r := BuildFrom(w, p, i, m, errno, f, k);
    BuildStopsCount(w, p, i, m, errno, f, k, es, n, e, t, q);
    if n == k {
      BuildStopsFirst(w, p, i, m, errno, f, k, es, e, t, q);
    }
    BuildCalls(w, p, i, m, errno, f, k);
    PrefixOfLength(r.w.log, w.log, MkdirCalls(p, es, m), n - k + 1);
    MkdirCallsTake(p, es, n - k + 1, m);
  }

  /** A prefix of a + b that is longer than a by t is a followed by the first t of b. */
  lemma PrefixOfLength(c: seq<Call>, a: seq<Call>, b: seq<Call>, t: nat)
    requires c <= a + b && |c| == |a| + t
    ensures t <= |b| && c == a + b[..t]
  {
    assert c == (a + b)[..|a| + t];
  }

  /** The mkdir calls of the first t prefixes are the first t mkdir calls. */
  lemma {:induction false} MkdirCallsTake(p: string, es: seq<nat>, t: nat, m: Mode)
    requires t <= |es|
    ensures MkdirCalls(p, es[..t], m) == MkdirCalls(p, es, m)[..t]
  {
    if t > 0 {
      assert es[..t][1..] == es[1..][..t - 1];
      MkdirCallsTake(p, es[1..], t - 1, m);
    }
  }

  /** Mkdir number n is the first the backend refuses, with an error other
      than EEXIST, among the mkdirs of the prefixes ending at es (numbered
      from k); the name q of its prefix is held by no node and denoted by
      no earlier prefix. */
  predicate RefusedAt(w: World, p: string, es: seq<nat>, f: nat -> Fault, k: nat, n: nat, e: Errno, q: Path)
  {
    && k <= n < k + |es|
    && (forall l :: k <= l < n ==> f(l).None?)
    && f(n) == Some(e) && e != EEXIST
    && !Present(w.nodes, q)
    && (forall l :: 0 <= l < n - k ==> PrefixName(p, es, l) != q)
  }

  /** The counting half of BuildStopsAt: the outcome and the number of
      calls issued; t is the end of the refused prefix. */
  lemma {:induction false} BuildStopsCount(w: World, p: string, i: nat, m: Mode, errno: Option<Errno>, f: nat -> Fault, k: nat,
                                           es: seq<nat>, n: nat, e: Errno, t: nat, q: Path)
    requires i <= |p| && p != "" && es == Ends(p, i)
    requires RefusedAt(w, p, es, f, k, n, e, q) && t == es[n - k] && q == Canon(p[..Min(t, |p|)])
    ensures var r := BuildFrom(w, p, i, m, errno, f, k);
      && r.rv == -1 && r.errno == Some(e)
      && |r.w.log| == |w.log| + (n - k + 1)
    decreases n - k
  {
    if n == k {
      BuildStopsFirst(w, p, i, m, errno, f, k, es, e, t, q);
    } else {
      var k1 := k + 1;
      var w', e0, errno' := BuildStopsNext(w, p, i, m, errno, f, k, k1, es, n, e, t, q);
      BuildStopsCount(w', p, e0, m, errno', f, k1, es[1..], n, e, t, q);
    }
  }

  /** The case of BuildStopsAt where the first mkdir is the refused one. */
  lemma BuildStopsFirst(w: World, p: string, i: nat, m: Mode, errno: Option<Errno>, f: nat -> Fault, k: nat,
                        es: seq<nat>, e: Errno, t: nat, q: Path)
    requires i <= |p| && p != "" && es == Ends(p, i)
    requires f(k) == Some(e) && e != EEXIST
    requires !Present(w.nodes, q) && t == es[0] && q == Canon(p[..Min(t, |p|)])
    ensures var r := BuildFrom(w, p, i, m, errno, f, k);
      && r.rv == -1 && r.errno == Some(e)
      && |r.w.log| == |w.log| + 1
      && r.w.log == w.log + MkdirCalls(p, es[..1], m)
      && r.w.nodes == w.nodes
  {
    EndsFirst(p, i);
    BuildRefused(w, p, i, m, errno, f, k);
    MkdirCallsFirst(p, es, 0, m);
  }

  /** What builddirs' first turn leaves when its mkdir is let through and
      a later prefix is refused: it goes on from the next prefix, where the
      refusal is still ahead and its name still new. */
  lemma BuildStopsNext(w: World, p: string, i: nat, m: Mode, errno: Option<Errno>, f: nat -> Fault, k: nat, k1: nat,
                       es: seq<nat>, n: nat, e: Errno, t: nat, q: Path)
    returns (w': World, e0: nat, errno': Option<Errno>)
    requires i <= |p| && p != "" && es == Ends(p, i)
    requires RefusedAt(w, p, es, f, k, n, e, q) && t == es[n - k] && k < n && k1 == k + 1
    ensures e0 <= |p| && es[1..] == Ends(p, e0)
    ensures RefusedAt(w', p, es[1..], f, k1, n, e, q) && t == es[1..][n - k1]
    ensures |w'.log| == |w.log| + 1
    ensures BuildFrom(w, p, i, m, errno, f, k) == BuildFrom(w', p, e0, m, errno', f, k1)
  {
    e0 := NextEnd(p, i);
    var c := MkdirStep(w, p[..e0], m, f(k));
    w' := c.w;
    errno' := if c.err.Some? then c.err else errno;
    EndsFirst(p, i);
    BuildGoesOn(w, p, i, m, errno, f, k);
    assert PrefixName(p, es, 0) != q;
    assert p[..e0] == p[..Min(es[0], |p|)];
    forall l | 0 <= l < n - k1
      ensures PrefixName(p, es[1..], l) != q
    {
      assert PrefixName(p, es, l + 1) != q;
      assert es[1..][l] == es[l + 1];
    }
  }

  /** The first prefix of a non-empty path is not empty, and the prefixes
      after it are those from its end on. */
  lemma EndsFirst(p: string, i: nat)
    requires i <= |p| && p != ""
    ensures var e := NextEnd(p, i);
      && 0 < e <= |p| && Ends(p, i)[0] == e
      && (e < |p| ==> Ends(p, i)[1..] == Ends(p, e))
      && (e == |p| ==> Ends(p, i) == [e])
  {
  }


  /** The mkdir calls of the first j+1 prefixes: the first one, then those of the next j. */
  lemma MkdirCallsFirst(p: string, es: seq<nat>, j: nat, m: Mode)
    requires j < |es|
    ensures MkdirCalls(p, es[..j + 1], m) == [Mkdir(p[..Min(es[0], |p|)], m)] + MkdirCalls(p, es[1..][..j], m)
  {
    assert es[..j + 1][1..] == es[1..][..j];
  }

  /** A mkdir of a new prefix that the backend refuses with an error other
      than EEXIST ends builddirs with -1 after that one call. */
  lemma BuildRefused(w: World, p: string, i: nat, m: Mode, errno: Option<Errno>, f: nat -> Fault, k: nat)
    requires i <= |p| && f(k).Some? && f(k) != Some(EEXIST)
    requires p[..NextEnd(p, i)] != "" && !Present(w.nodes, Canon(p[..NextEnd(p, i)]))
    ensures var e := NextEnd(p, i);
      BuildFrom(w, p, i, m, errno, f, k) == BuildOut(Logged(w, Mkdir(p[..e], m)), -1, f(k))
  {
  }

  /** A mkdir that the backend lets through, on a prefix before the last,
      lets builddirs go on to the next prefix. */
  lemma BuildGoesOn(w: World, p: string, i: nat, m: Mode, errno: Option<Errno>, f: nat -> Fault, k: nat)
    requires i <= |p| && f(k).None?
    requires NextEnd(p, i) < |p| && p[..NextEnd(p, i)] != ""
    ensures var e := NextEnd(p, i);
      var c := MkdirStep(w, p[..e], m, f(k));
      BuildFrom(w, p, i, m, errno, f, k) == BuildFrom(c.w, p, e, m, if c.err.Some? then c.err else errno, f, k + 1)
  {
  }

  /** When the backend refuses nothing, builddirs succeeds on any non-empty
      path: every prefix is made or already there. */
  lemma {:induction false} BuildSucceeds(w: World, p: string, i: nat, m: Mode, errno: Option<Errno>, f: nat -> Fault, k: nat)
    requires i <= |p| && p != ""
    requires forall j :: k <= j ==> f(j).None?
    ensures BuildFrom(w, p, i, m, errno, f, k).rv == 0
    decreases |p| - i
  {
    var e := NextEnd(p, i);
    EndsShape(p, i);
    assert p[..e] != "";
    var c := MkdirStep(w, p[..e], m, f(k));
    var errno' := if c.err.Some? then c.err else errno;
    if e < |p| {
      BuildSucceeds(c.w, p, e, m, errno', f, k + 1);
    }
  }

  /** EEXIST counts as success: over a path whose every prefix already
      exists, builddirs creates nothing and returns 0. */
  lemma {:induction false} BuildExisting(w: World, p: string, i: nat, m: Mode, errno: Option<Errno>, f: nat -> Fault, k: nat)
    requires i <= |p|
    requires forall e :: e in Ends(p, i) ==> e <= |p| && Present(w.nodes, Canon(p[..e]))
    ensures var r := BuildFrom(w, p, i, m, errno, f, k);
      r.w.nodes == w.nodes && r.rv == 0
    decreases |p| - i
  {
    var e := NextEnd(p, i);
    assert e in Ends(p, i);
    var c := MkdirStep(w, p[..e], m, f(k));
    if e < |p| {
      assert forall e' :: e' in Ends(p, e) ==> e' in Ends(p, i);
      BuildExisting(c.w, p, e, m, Some(EEXIST), f, k + 1);
    }
  }

  /** `w'` holds every node of `w` unchanged, and every node it adds is a
      directory made with mode `m` under the backend's creation mask. */
  predicate AddsDirs(w: World, w': World, m: Mode)
  {
    && w'.env == w.env
    && (forall q :: q in w.nodes ==> q in w'.nodes && w'.nodes[q] == w.nodes[q])
    && (forall q :: q in w'.nodes && q !in w.nodes ==>
          w'.nodes[q] == NewNode(w.env, Directory, CreatedDir(m, w.env.cmask)))
  }

  lemma AddsDirsTrans(a: World, b: World, c: World, m: Mode)
    requires AddsDirs(a, b, m) && AddsDirs(b, c, m)
    ensures AddsDirs(a, c, m)
  {
  }

  /** One mkdir adds at most the directory it was asked for. */
  lemma MkdirAddsDir(w: World, p: Path, m: Mode, fault: Fault)
    ensures AddsDirs(w, MkdirStep(w, p, m, fault).w, m)
  {
  }

  /** builddirs never removes or changes an existing node (directories it
      made before a failure stay), and every node it adds is a directory
      made with the mode it was given, under the backend's creation mask. */
  lemma {:induction false} BuildKeeps(w: World, p: string, i: nat, m: Mode, errno: Option<Errno>, f: nat -> Fault, k: nat)
    requires i <= |p|
    ensures AddsDirs(w, BuildFrom(w, p, i, m, errno, f, k).w, m)
    decreases |p| - i
  {
    var e := NextEnd(p, i);
    var c := MkdirStep(w, p[..e], m, f(k));
    var errno' := if c.err.Some? then c.err else errno;
    var rv := if errno' == Some(EEXIST) then 0 else if c.err.Some? then -1 else 0;
    MkdirAddsDir(w, p[..e], m, f(k));
    if !(rv == -1 || e == |p|) {
      BuildKeeps(c.w, p, e, m, errno', f, k + 1);
      AddsDirsTrans(w, c.w, BuildFrom(c.w, p, e, m, errno', f, k + 1).w, m);
    }
  }

  /** A stale errno left by an earlier call changes nothing: the outcome
      of builddirs does not depend on errno's value when it starts. */
  lemma {:induction false} BuildIgnoresErrno(w: World, p: string, i: nat, m: Mode, e1: Option<Errno>, e2: Option<Errno>, f: nat -> Fault, k: nat)
    requires i <= |p|
    ensures BuildFrom(w, p, i, m, e1, f, k).w == BuildFrom(w, p, i, m, e2, f, k).w
    ensures BuildFrom(w, p, i, m, e1, f, k).rv == BuildFrom(w, p, i, m, e2, f, k).rv
    decreases |p| - i
  {
    var e := NextEnd(p, i);
    var c := MkdirStep(w, p[..e], m, f(k));
    if c.err.None? && e < |p| {
      BuildIgnoresErrno(c.w, p, e, m, e1, e2, f, k + 1);
    }
  }

  /** builddirs only ever appends to the call log. */
  lemma {:induction false} BuildLogGrows(w: World, p: string, i: nat, m: Mode, errno: Option<Errno>, f: nat -> Fault, k: nat)
    requires i <= |p|
    ensures w.log <= BuildFrom(w, p, i, m, errno, f, k).w.log
    decreases |p| - i
  {
    var e := NextEnd(p, i);
    var c := MkdirStep(w, p[..e], m, f(k));
    var errno' := if c.err.Some? then c.err else errno;
    var rv := if errno' == Some(EEXIST) then 0 else if c.err.Some? then -1 else 0;
    if !(rv == -1 || e == |p|) {
      BuildLogGrows(c.w, p, e, m, errno', f, k + 1);
    }
  }

  // ---------------------------------------------------------------------
  // fsu_mkpath

  /** fsu_mkpath as written: builddirs with `mode`, whose result is dropped,
      then chmod of the whole path to `dirMode`; -1 exactly when that chmod
      fails. */
  function MkPathSpec(w: World, path: string, mode: Mode, dirMode: Mode, umask: Mode, errno: Option<Errno>,
                      dupFails: bool, f: nat -> Fault, chmodFault: Fault): BuildOut
  {
    var b := BuildDirsSpec(w, path, mode, umask, errno, dupFails, f);
    var c := ChmodStep(b.w, ByPath(path), dirMode, chmodFault);
    BuildOut(c.w, if c.err.Some? then -1 else 0, if c.err.Some? then c.err else b.errno)
  }

  /** fsu_mkpath. */
  method MkPath(fs: FileSystem, proc: Proc, path: string, mode: Mode, dirMode: Mode,
                dupFails: bool, f: nat -> Fault, chmodFault: Fault) returns (rv: int)
    requires proc.Valid() && NUL !in path
    modifies fs, proc
    ensures proc.Valid() && proc.umask == old(proc.umask)
    ensures var r := MkPathSpec(old(fs.State()), path, mode, dirMode, old(proc.umask), old(proc.errno), dupFails, f, chmodFault);
      fs.State() == r.w && rv == r.rv && proc.errno == r.errno
  {
    var ignored := BuildDirs(fs, proc, path, mode, dupFails, f);
    var err := fs.Chmod(ByPath(path), dirMode, chmodFault);
    proc.SetErrno(err);
    rv := if err.Some? then -1 else 0;
  }

  /** fsu_mkpath as its comment describes it: the intermediate directories
      get `dirMode` and the terminal one `mode`. */
  function MkPathIntended(w: World, path: string, mode: Mode, dirMode: Mode, umask: Mode, errno: Option<Errno>,
                          dupFails: bool, f: nat -> Fault, chmodFault: Fault): BuildOut
  {
    MkPathSpec(w, path, dirMode, mode, umask, errno, dupFails, f, chmodFault)
  }

  /** A directory at the canonical name of `path` is what chmod of `path` changes. */
  lemma DirectoryResolves(nodes: map<Path, Node>, path: string)
    requires Present(nodes, Canon(path)) && nodes[Canon(path)].kind == Directory
    ensures KeyOf(nodes, ByPath(path)) == Some(Canon(path))
  {
  }

  /** fsu_mkpath's outcome is chmod's alone: when the terminal directory is
      already there, it returns 0 even if builddirs failed (here: could not
      copy the path, or every mkdir was refused). */
  lemma MkPathIgnoresBuild(w: World, path: string, mode: Mode, dirMode: Mode, umask: Mode, errno: Option<Errno>,
                           dupFails: bool, f: nat -> Fault)
    requires NUL !in path
    requires Present(w.nodes, Canon(path)) && w.nodes[Canon(path)].kind == Directory
    ensures MkPathSpec(w, path, mode, dirMode, umask, errno, dupFails, f, None).rv == 0
  {
    var b := BuildDirsSpec(w, path, mode, umask, errno, dupFails, f);
    if !dupFails {
      BuildKeeps(w, path, 0, Masked(mode, umask), errno, f, 0);
    }
    DirectoryResolves(b.w.nodes, path);
  }

  /** As written, a successful fsu_mkpath leaves the terminal directory with
      the permissions of `dirMode`, whatever `mode` is. */
  lemma MkPathTerminal(w: World, path: string, mode: Mode, dirMode: Mode, umask: Mode, errno: Option<Errno>,
                       dupFails: bool, f: nat -> Fault, chmodFault: Fault)
    ensures var r := MkPathSpec(w, path, mode, dirMode, umask, errno, dupFails, f, chmodFault);
      r.rv == 0 && Present(r.w.nodes, Canon(path)) && r.w.nodes[Canon(path)].kind == Directory ==>
        r.w.nodes[Canon(path)].perm == Perms(dirMode)
  {
    var b := BuildDirsSpec(w, path, mode, umask, errno, dupFails, f);
    var c := ChmodStep(b.w, ByPath(path), dirMode, chmodFault);
    if c.err.None? && Present(c.w.nodes, Canon(path)) && c.w.nodes[Canon(path)].kind == Directory {
      assert Present(b.w.nodes, Canon(path)) && b.w.nodes[Canon(path)].kind == Directory;
      DirectoryResolves(b.w.nodes, path);
    }
  }

  /** The intended fsu_mkpath leaves the terminal directory with the
      permissions of `mode`, and makes every missing intermediate directory
      from `dirMode`. */
  lemma MkPathIntendedTerminal(w: World, path: string, mode: Mode, dirMode: Mode, umask: Mode, errno: Option<Errno>,
                               dupFails: bool, f: nat -> Fault, chmodFault: Fault)
    requires NUL !in path
    ensures var r := MkPathIntended(w, path, mode, dirMode, umask, errno, dupFails, f, chmodFault);
      r.rv == 0 && Present(r.w.nodes, Canon(path)) && r.w.nodes[Canon(path)].kind == Directory ==>
        r.w.nodes[Canon(path)].perm == Perms(mode)
    ensures AddsDirs(w, BuildDirsSpec(w, path, dirMode, umask, errno, dupFails, f).w, Masked(dirMode, umask))
  {
    MkPathTerminal(w, path, dirMode, mode, umask, errno, dupFails, f, chmodFault);
    if !dupFails {
      BuildKeeps(w, path, 0, Masked(dirMode, umask), errno, f, 0);
    }
  }

  // ---------------------------------------------------------------------
  // main

  /** The -m option after parsing: absent, rejected by setmode, or the mode
      getmode derives from a=rwx. */
  datatype ModeArg = NoModeArg | BadModeArg | ModeArg(mode: Mode)

  /** What the backend and the allocator answer while one argument is handled. */
  datatype ArgFaults = ArgFaults(mkdir: Fault, chmod: Fault, dupFails: bool, build: nat -> Fault)

  /** The outcome of one argument: the world, whether it failed, and errno. */
  datatype ArgOut = ArgOut(w: World, failed: bool, errno: Option<Errno>)

  /** The outcome of the arguments: the world, which of them failed, and errno. */
  datatype MainOut = MainOut(w: World, fails: seq<bool>, errno: Option<Errno>)

  /** What the utility leaves: the world and its exit status. */
  datatype Outcome = Outcome(w: World, status: int)

  /** a=rwx with the bits of the umask removed. */
  function DefaultMode(umask: Mode): Mode { FromBits(ACCESSPERMS & !Bits(umask)) }

  /** The mode of intermediate directories: `m` plus u+wx. */
  function WithUserWX(m: Mode): Mode { FromBits(Bits(m) | S_IWUSR | S_IXUSR) }

  /** mkdir(2) keeps only the nine permission bits, so any other bit asks for a chmod. */
  predicate NeedsChmod(mode: Mode) { Bits(mode) & !ACCESSPERMS != 0 }

  /** The default mode has the permission bits the umask allows and no other. */
  lemma DefaultModeBits(umask: Mode)
    ensures Bits(DefaultMode(umask)) & !ACCESSPERMS == 0
    ensures Bits(DefaultMode(umask)) & Bits(umask) == 0
    ensures Bits(DefaultMode(umask)) | Bits(umask) == ACCESSPERMS | Bits(umask)
  {
    BitsOf(ACCESSPERMS & !Bits(umask));
    DefaultBits(Bits(DefaultMode(umask)), Bits(umask));
  }

  /** The bit-level identities behind DefaultModeBits. */
  lemma DefaultBits(d: bv32, u: bv32)
    requires d == ACCESSPERMS & !u
    ensures d & !ACCESSPERMS == 0 && d & u == 0 && d | u == ACCESSPERMS | u
  {
  }

  /** The intermediate mode always has user write and search and keeps
      every other bit of the mode it extends. */
  lemma WithUserWXBits(m: Mode)
    ensures Bits(WithUserWX(m)) & (S_IWUSR | S_IXUSR) == S_IWUSR | S_IXUSR
    ensures Bits(WithUserWX(m)) & !(S_IWUSR | S_IXUSR) == Bits(m) & !(S_IWUSR | S_IXUSR)
  {
    BitsOf(Bits(m) | S_IWUSR | S_IXUSR);
  }

  /** One argument: with -p, fsu_mkpath in its corrected form (see
      MkPathIntended; the process umask is 0 by then); without, mkdir and,
      for bits mkdir drops, a chmod. */
  function ArgSpec(w: World, arg: string, pflag: bool, mode: Mode, dirMode: Mode, errno: Option<Errno>, fa: ArgFaults): ArgOut
  {
    if pflag then
      var r := MkPathIntended(w, arg, mode, dirMode, 0, errno, fa.dupFails, fa.build, fa.chmod);
      ArgOut(r.w, r.rv < 0, r.errno)
    else
      var c := MkdirStep(w, arg, mode, fa.mkdir);
      if c.err.Some? then ArgOut(c.w, true, c.err)
      else if NeedsChmod(mode) then
        var h := ChmodStep(c.w, ByPath(arg), mode, fa.chmod);
        ArgOut(h.w, h.err.Some?, if h.err.Some? then h.err else errno)
      else ArgOut(c.w, false, errno)
  }

  /** The arguments from index i on, in order; `fa(i)` answers for argument i. */
  function MainFrom(w: World, args: seq<string>, i: nat, pflag: bool, mode: Mode, dirMode: Mode,
                    errno: Option<Errno>, fa: nat -> ArgFaults): (r: MainOut)
    requires i <= |args|
    ensures |r.fails| == |args| - i
    decreases |args| - i
  {
    if i == |args| then MainOut(w, [], errno)
    else
      var a := ArgSpec(w, args[i], pflag, mode, dirMode, errno, fa(i));
      var rest := MainFrom(a.w, args, i + 1, pflag, mode, dirMode, a.errno, fa);
      MainOut(rest.w, [a.failed] + rest.fails, rest.errno)
  }

  /** main: the default mode and the intermediate mode are fixed from the
      umask before -m is looked at; a bad -m or no operand ends with failure
      before anything is created; else every operand is handled and the
      status is failure exactly when one of them failed. */
  function MainSpec(w: World, umask: Mode, errno: Option<Errno>, args: seq<string>, pflag: bool,
                    marg: ModeArg, fa: nat -> ArgFaults): Outcome
  {
    var mode0 := DefaultMode(umask);
    var dirMode := WithUserWX(mode0);
    if marg.BadModeArg? || |args| == 0 then Outcome(w, EXIT_FAILURE)
    else
      var mode := if marg.ModeArg? then marg.mode else mode0;
      var r := MainFrom(w, args, 0, pflag, mode, dirMode, errno, fa);
      Outcome(r.w, if true in r.fails then EXIT_FAILURE else EXIT_SUCCESS)
  }

  /** One argument of main's loop. */
  method MkdirArg(fs: FileSystem, proc: Proc, arg: string, pflag: bool, mode: Mode, dirMode: Mode, fa: ArgFaults)
    returns (failed: bool)
    requires proc.Valid() && proc.umask == 0 && NUL !in arg
    modifies fs, proc
    ensures proc.Valid() && proc.umask == 0
    ensures var a := ArgSpec(old(fs.State()), arg, pflag, mode, dirMode, old(proc.errno), fa);
      fs.State() == a.w && failed == a.failed && proc.errno == a.errno
  {
    if pflag {
      var rv := MkPath(fs, proc, arg, dirMode, mode, fa.dupFails, fa.build, fa.chmod);
      failed := rv < 0;
    } else {
      var err := fs.Mkdir(arg, mode, fa.mkdir);
      proc.SetErrno(err);
      failed := err.Some?;
      if !failed && NeedsChmod(mode) {
        var err2 := fs.Chmod(ByPath(arg), mode, fa.chmod);
        proc.SetErrno(err2);
        failed := err2.Some?;
      }
    }
  }

  /** mkdir's main, from the point where the filesystem is mounted. */
  method MkdirMain(fs: FileSystem, proc: Proc, args: seq<string>, pflag: bool, marg: ModeArg, fa: nat -> ArgFaults)
    returns (status: int)
    requires proc.Valid() && forall a :: a in args ==> NUL !in a
    modifies fs, proc
    ensures proc.umask == 0
    ensures var r := MainSpec(old(fs.State()), old(proc.umask), old(proc.errno), args, pflag, marg, fa);
      fs.State() == r.w && status == r.status
  {
    var u := proc.Umask(0);
    var mode := DefaultMode(u);
    var dirMode := WithUserWX(mode);
    if marg.BadModeArg? || |args| == 0 {
      return EXIT_FAILURE;
    }
    if marg.ModeArg? {
      mode := marg.mode;
    }
    status := EachArg(fs, proc, args, pflag, mode, dirMode, fa);
  }

  /** main's loop over the operands. */
  method EachArg(fs: FileSystem, proc: Proc, args: seq<string>, pflag: bool, mode: Mode, dirMode: Mode, fa: nat -> ArgFaults)
    returns (status: int)
    requires proc.Valid() && proc.umask == 0 && forall a :: a in args ==> NUL !in a
    modifies fs, proc
    ensures proc.umask == 0
    ensures var r := MainFrom(old(fs.State()), args, 0, pflag, mode, dirMode, old(proc.errno), fa);
      fs.State() == r.w && status == (if true in r.fails then EXIT_FAILURE else EXIT_SUCCESS)
  {
    ghost var target := MainFrom(fs.State(), args, 0, pflag, mode, dirMode, proc.errno, fa);
    ghost var done: seq<bool> := [];
    assert done + target.fails == target.fails;
    status := EXIT_SUCCESS;
    var i := 0;
    while i < |args|
      invariant i <= |args| && |done| == i
      invariant proc.Valid() && proc.umask == 0
      invariant status == if true in done then EXIT_FAILURE else EXIT_SUCCESS
      invariant var r := MainFrom(fs.State(), args, i, pflag, mode, dirMode, proc.errno, fa);
        target == MainOut(r.w, done + r.fails, r.errno)
    {
      ghost var w, e0 := fs.State(), proc.errno;
      assert args[i] in args;
      var failed := MkdirArg(fs, proc, args[i], pflag, mode, dirMode, fa(i));
      ghost var rest := MainFrom(fs.State(), args, i + 1, pflag, mode, dirMode, proc.errno, fa);
      assert MainFrom(w, args, i, pflag, mode, dirMode, e0, fa) == MainOut(rest.w, [failed] + rest.fails, rest.errno);
      assert done + ([failed] + rest.fails) == (done + [failed]) + rest.fails;
      if failed {
        status := EXIT_FAILURE;
      }
      done := done + [failed];
      i := i + 1;
    }
  }

  /** Without -p, an operand succeeds exactly when its mkdir succeeds and
      any chmod for bits mkdir drops succeeds; it is then a new directory
      at its name with mode's permission bits under the creation mask, or
      with all of mode's 07777 bits once that chmod has run. */
  lemma ArgDirectory(w: World, arg: string, mode: Mode, dirMode: Mode, errno: Option<Errno>, fa: ArgFaults)
    ensures var a := ArgSpec(w, arg, false, mode, dirMode, errno, fa);
      a.failed <==> MkdirStep(w, arg, mode, fa.mkdir).err.Some? || (NeedsChmod(mode) && fa.chmod.Some?)
    ensures var a := ArgSpec(w, arg, false, mode, dirMode, errno, fa);
      !a.failed ==>
        && !Present(w.nodes, Canon(arg)) && Present(a.w.nodes, Canon(arg))
        && a.w.nodes[Canon(arg)].kind == Directory
        && a.w.nodes[Canon(arg)].perm == (if NeedsChmod(mode) then Perms(mode) else CreatedDir(mode, w.env.cmask))
  {
    var c := MkdirStep(w, arg, mode, fa.mkdir);
    if c.err.None? {
      DirectoryResolves(c.w.nodes, arg);
    }
  }

  /** A call in a log is still there once the log has grown. */
  lemma InGrownLog(x: Call, a: seq<Call>, b: seq<Call>)
    requires x in a && a <= b
    ensures x in b
  {
    var j :| 0 <= j < |a| && a[j] == x;
    assert b[j] == x;
  }

  lemma PrefixTrans(a: seq<Call>, b: seq<Call>, c: seq<Call>)
    requires a <= b && b <= c
    ensures a <= c
  {
  }

  /** The call by which main attempts an operand: its mkdir, or with -p the
      chmod to `mode` that ends fsu_mkpath. */
  function Attempt(arg: string, pflag: bool, mode: Mode): Call
  {
    if pflag then Chmod(ByPath(arg), mode) else Mkdir(arg, mode)
  }

  /** Handling one operand only appends to the log, and it appends the
      operand's attempt. */
  lemma ArgLog(w: World, arg: string, pflag: bool, mode: Mode, dirMode: Mode, errno: Option<Errno>, fa: ArgFaults)
    ensures var a := ArgSpec(w, arg, pflag, mode, dirMode, errno, fa);
      w.log <= a.w.log && Attempt(arg, pflag, mode) in a.w.log
  {
    if pflag && !fa.dupFails {
      BuildLogGrows(w, arg, 0, Masked(dirMode, 0), errno, fa.build, 0);
    }
  }

  /** main attempts every operand, in order, whatever happened to the
      earlier ones. */
  lemma {:induction false} MainTriesAll(w: World, args: seq<string>, i: nat, pflag: bool, mode: Mode, dirMode: Mode,
                                        errno: Option<Errno>, fa: nat -> ArgFaults)
    requires i <= |args|
    ensures var r := MainFrom(w, args, i, pflag, mode, dirMode, errno, fa);
      && w.log <= r.w.log
      && forall j :: i <= j < |args| ==> Attempt(args[j], pflag, mode) in r.w.log
    decreases |args| - i
  {
    if i < |args| {
      var a := ArgSpec(w, args[i], pflag, mode, dirMode, errno, fa(i));
      var r := MainFrom(a.w, args, i + 1, pflag, mode, dirMode, a.errno, fa);
      assert MainFrom(w, args, i, pflag, mode, dirMode, errno, fa).w == r.w;
      ArgLog(w, args[i], pflag, mode, dirMode, errno, fa(i));
      MainTriesAll(a.w, args, i + 1, pflag, mode, dirMode, a.errno, fa);
      PrefixTrans(w.log, a.w.log, r.w.log);
      forall j | i <= j < |args|
        ensures Attempt(args[j], pflag, mode) in r.w.log
      {
        if j == i {
          InGrownLog(Attempt(args[i], pflag, mode), a.w.log, r.w.log);
        }
      }
    }
  }
}
