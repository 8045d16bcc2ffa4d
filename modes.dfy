/**
 * Mode-bit arithmetic shared by the utilities: the st_mode layout of
 * <sys/stat.h> (file-type bits in S_IFMT, then setuid, setgid, sticky and
 * the nine permission bits) and the masks the copy and mkdir code apply.
 *
 * A mode is stored as a 32-bit unsigned number (`Mode`); every bitwise
 * operation is done on its bv32 image (`Bits`) and converted back.
 */
module Modes {

  /** A 32-bit unsigned integer: mode_t, u_int32_t. */
  newtype Bits32 = x: int | 0 <= x < 0x1_0000_0000

  type Mode = Bits32

  /** The bit pattern of a stored value. */
  function Bits(m: Bits32): bv32 { m as bv32 }

  /** The stored value of a bit pattern. */
  function FromBits(b: bv32): Bits32 { b as Bits32 }

  /** Storing a bit pattern and reading it back gives the same bits. */
  lemma BitsOf(b: bv32)
    ensures Bits(FromBits(b)) == b
  {
  }

  // File-type field and its values.
  const S_IFMT: bv32   := 0xF000  // 0170000
  const S_IFIFO: bv32  := 0x1000  // 0010000
  const S_IFCHR: bv32  := 0x2000  // 0020000
  const S_IFDIR: bv32  := 0x4000  // 0040000
  const S_IFBLK: bv32  := 0x6000  // 0060000
  const S_IFREG: bv32  := 0x8000  // 0100000
  const S_IFLNK: bv32  := 0xA000  // 0120000
  const S_IFSOCK: bv32 := 0xC000  // 0140000

  // Special bits.
  const S_ISUID: bv32 := 0x800  // 04000
  const S_ISGID: bv32 := 0x400  // 02000
  const S_ISVTX: bv32 := 0x200  // 01000

  // Permission bits.
  const S_IRWXU: bv32 := 0x1C0  // 0700
  const S_IRWXG: bv32 := 0x38   // 0070
  const S_IRWXO: bv32 := 0x7    // 0007
  const S_IWUSR: bv32 := 0x80   // 0200
  const S_IXUSR: bv32 := 0x40   // 0100

  /** 0777: the nine permission bits. */
  const ACCESSPERMS: bv32 := 0x1FF
  /** 07777: permission bits plus setuid, setgid and sticky. */
  const ALLPERMS: bv32 := 0xFFF
  /** setuid and setgid together. */
  const SETID: bv32 := 0xC00
  /** The mask setfile applies to the source mode: setuid|setgid|rwx for u/g/o (06777). */
  const SETFILE_MASK: bv32 := 0xDFF
  /** RETAINBITS of copy_file: setuid|setgid|sticky|rwx for u/g/o (07777). */
  const RETAINBITS: bv32 := 0xFFF

  /** S_ISLNK. */
  predicate IsLnk(m: Mode) { Bits(m) & S_IFMT == S_IFLNK }

  /** The mode has setuid or setgid. */
  predicate HasSetId(m: Mode) { Bits(m) & SETID != 0 }

  /** The 07777 bits a chmod stores. */
  function Perms(m: Mode): Mode { FromBits(Bits(m) & ALLPERMS) }

  /** The permissions of a file, fifo or device created with `mode` under creation mask `cmask`. */
  function Created(mode: Mode, cmask: Mode): Mode { FromBits(Bits(mode) & ALLPERMS & !Bits(cmask)) }

  /** The permissions of a directory created with `mode` under creation mask `cmask`. */
  function CreatedDir(mode: Mode, cmask: Mode): Mode { FromBits(Bits(mode) & ACCESSPERMS & !Bits(cmask)) }

  /** The mode setfile hands to chmod before any chown failure. */
  function SetfileMode(m: Mode): Mode { FromBits(Bits(m) & SETFILE_MASK) }

  /** The mode with setuid and setgid removed. */
  function StripSetId(m: Mode): Mode { FromBits(Bits(m) & !SETID) }

  /** The mode copy_file re-applies to a new setuid/setgid copy:
      st_mode & RETAINBITS & ~umask. */
  function RetainMode(m: Mode, umask: Mode): Mode { FromBits(Bits(m) & RETAINBITS & !Bits(umask)) }

  /** setfile's mask drops the sticky bit and the file type, and keeps
      setuid, setgid and the nine permission bits as they were. */
  lemma SetfileModeBits(m: Mode)
    ensures Bits(SetfileMode(m)) & S_ISVTX == 0
    ensures Bits(SetfileMode(m)) & S_IFMT == 0
    ensures Bits(SetfileMode(m)) & SETID == Bits(m) & SETID
    ensures Bits(SetfileMode(m)) & ACCESSPERMS == Bits(m) & ACCESSPERMS
  {
    BitsOf(Bits(m) & SETFILE_MASK);
  }

  /** chmod stores the setfile mode with every bit intact. */
  lemma SetfilePermBits(m: Mode)
    ensures Bits(Perms(SetfileMode(m))) == Bits(m) & SETFILE_MASK
  {
    var x := Bits(m) & SETFILE_MASK;
    BitsOf(x);
    BitsOf(x & ALLPERMS);
  }

  /** A file created with the source mode minus setuid/setgid has neither
      bit and none the creation mask forbids; its permission bits are the
      source's otherwise. */
  lemma CreatedStrippedBits(m: Mode, cmask: Mode)
    ensures !HasSetId(Created(StripSetId(m), cmask))
    ensures Bits(Created(StripSetId(m), cmask)) & Bits(cmask) == 0
    ensures Bits(Created(StripSetId(m), cmask)) & !SETID == Bits(m) & ALLPERMS & !SETID & !Bits(cmask)
  {
    CreatedOfStripped(m, cmask);
    StrippedCreateBits(Bits(m), Bits(cmask));
  }

  /** The bits of a file created from a stripped mode. */
  lemma CreatedOfStripped(m: Mode, cmask: Mode)
    ensures Bits(Created(StripSetId(m), cmask)) == (Bits(m) & !SETID) & ALLPERMS & !Bits(cmask)
  {
    BitsOf(Bits(m) & !SETID);
    BitsOf((Bits(m) & !SETID) & ALLPERMS & !Bits(cmask));
  }

  /** The bit-level identities behind CreatedStrippedBits. */
  lemma StrippedCreateBits(a: bv32, c: bv32)
    ensures (a & !SETID) & ALLPERMS & !c & SETID == 0
    ensures (a & !SETID) & ALLPERMS & !c & c == 0
    ensures (a & !SETID) & ALLPERMS & !c & !SETID == a & ALLPERMS & !SETID & !c
  {
  }

  /** Stripping clears setuid and setgid and keeps every other bit. */
  lemma StripSetIdBits(m: Mode)
    ensures !HasSetId(StripSetId(m))
    ensures Bits(StripSetId(m)) & !SETID == Bits(m) & !SETID
  {
    BitsOf(Bits(m) & !SETID);
  }

  /** The retained mode has no file type and no bit the umask forbids; the
      source's setuid, setgid, sticky and permission bits each survive
      exactly where the umask does not clear them. */
  lemma RetainModeBits(m: Mode, umask: Mode)
    ensures Bits(RetainMode(m, umask)) & S_IFMT == 0
    ensures Bits(RetainMode(m, umask)) & Bits(umask) == 0
    ensures Bits(RetainMode(m, umask)) & S_ISUID == Bits(m) & S_ISUID & !Bits(umask)
    ensures Bits(RetainMode(m, umask)) & S_ISGID == Bits(m) & S_ISGID & !Bits(umask)
    ensures Bits(RetainMode(m, umask)) & S_ISVTX == Bits(m) & S_ISVTX & !Bits(umask)
    ensures Bits(RetainMode(m, umask)) & ACCESSPERMS == Bits(m) & ACCESSPERMS & !Bits(umask)
  {
    BitsOf(Bits(m) & RETAINBITS & !Bits(umask));
  }

  /** chmod stores the retained mode with every bit intact. */
  lemma RetainPermBits(m: Mode, umask: Mode)
    ensures Bits(Perms(RetainMode(m, umask))) == Bits(m) & ALLPERMS & !Bits(umask)
  {
    var x := Bits(m) & RETAINBITS & !Bits(umask);
    BitsOf(x);
    BitsOf(x & ALLPERMS);
  }
}
