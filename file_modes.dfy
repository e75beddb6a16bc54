/** The PX4_O_MODE_777, PX4_O_MODE_666 and PX4_O_MODE_600 presets passed to open() with
    O_CREAT. NuttX writes them as octal literals, POSIX as unions of the <sys/stat.h>
    permission bits, whose values IEEE Std 1003.1-2008 fixes. Dafny has no octal
    literals, so each value below carries its octal spelling in a comment. */
module FileModes {

  type Mode = bv16

  datatype Who = Owner | Group | Other
  datatype Access = Read | Write | Execute

  // <sys/stat.h> permission bits.
  const S_IRUSR: Mode := 0x100  // 0400
  const S_IWUSR: Mode := 0x80   // 0200
  const S_IXUSR: Mode := 0x40   // 0100
  const S_IRWXU: Mode := 0x1C0  // 0700
  const S_IRGRP: Mode := 0x20   // 0040
  const S_IWGRP: Mode := 0x10   // 0020
  const S_IXGRP: Mode := 0x8    // 0010
  const S_IRWXG: Mode := 0x38   // 0070
  const S_IROTH: Mode := 0x4    // 0004
  const S_IWOTH: Mode := 0x2    // 0002
  const S_IXOTH: Mode := 0x1    // 0001
  const S_IRWXO: Mode := 0x7    // 0007

  /** The nine permission bits, rwx for owner, group and other. */
  const PermissionBits: Mode := 0x1FF

  /** The <sys/stat.h> bit that grants `what` to `who`. */
  function PermissionBit(who: Who, what: Access): Mode {
    match (who, what)
    case (Owner, Read) => S_IRUSR
    case (Owner, Write) => S_IWUSR
    case (Owner, Execute) => S_IXUSR
    case (Group, Read) => S_IRGRP
    case (Group, Write) => S_IWGRP
    case (Group, Execute) => S_IXGRP
    case (Other, Read) => S_IROTH
    case (Other, Write) => S_IWOTH
    case (Other, Execute) => S_IXOTH
  }

  predicate Grants(m: Mode, who: Who, what: Access) {
    m & PermissionBit(who, what) != 0
  }

  datatype ModeEncoding = OctalLiterals | SymbolicUnions

  datatype ModePresets = ModePresets(encoding: ModeEncoding, mode777: Mode, mode666: Mode, mode600: Mode)

  /** NuttX: 0777, 0666 and 0600. */
  function NuttxModes(): (m: ModePresets)
    ensures m.encoding == OctalLiterals && MeansDocumentedPermissions(m)
  {
    ModePresets(OctalLiterals, 0x1FF, 0x1B6, 0x180)
  }

  /** POSIX: unions of the named permission bits. */
  function PosixModes(): (m: ModePresets)
    ensures m.encoding == SymbolicUnions && MeansDocumentedPermissions(m)
  {
    ModePresets(
      SymbolicUnions,
      S_IRWXU | S_IRWXG | S_IRWXO,
      S_IRUSR | S_IWUSR | S_IRGRP | S_IWGRP | S_IROTH | S_IWOTH,
      S_IRUSR | S_IWUSR)
  }

  /** The documented meaning of the three presets: full access for everyone;
      read and write for everyone; read and write for the owner only; and no bit
      outside the nine permission bits. */
  predicate MeansDocumentedPermissions(m: ModePresets) {
    && m.mode777 & !PermissionBits == 0
    && m.mode666 & !PermissionBits == 0
    && m.mode600 & !PermissionBits == 0
    && (forall who, what :: Grants(m.mode777, who, what))
    && (forall who, what :: Grants(m.mode666, who, what) <==> what != Execute)
    && (forall who, what :: Grants(m.mode600, who, what) <==> who == Owner && what != Execute)
  }

  /** Both encodings denote the documented permissions, and they are the same numbers:
      the POSIX unions equal the NuttX octal literals. */
  lemma EncodingsAgree()
    ensures MeansDocumentedPermissions(NuttxModes())
    ensures MeansDocumentedPermissions(PosixModes())
    ensures PosixModes().mode777 == NuttxModes().mode777
    ensures PosixModes().mode666 == NuttxModes().mode666
    ensures PosixModes().mode600 == NuttxModes().mode600
  {
  }

  /** Any presets with the documented meaning grant 0600 within 0666 within 0777, as bit sets. */
  lemma {:induction false} PresetsNest(m: ModePresets)
    requires MeansDocumentedPermissions(m)
    ensures m.mode600 & m.mode666 == m.mode600
    ensures m.mode666 & m.mode777 == m.mode666
  {
    assert m.mode600 == 0x180 && m.mode666 == 0x1B6 && m.mode777 == 0x1FF by {
      DocumentedPermissionsDetermineBits(m);
    }
  }

  /** The documented meaning fixes each preset to one bit pattern. */
  lemma {:induction false} DocumentedPermissionsDetermineBits(m: ModePresets)
    requires MeansDocumentedPermissions(m)
    ensures m.mode777 == 0x1FF && m.mode666 == 0x1B6 && m.mode600 == 0x180
  {
    assert Grants(m.mode777, Owner, Read) && Grants(m.mode777, Owner, Write) && Grants(m.mode777, Owner, Execute);
    assert Grants(m.mode777, Group, Read) && Grants(m.mode777, Group, Write) && Grants(m.mode777, Group, Execute);
    assert Grants(m.mode777, Other, Read) && Grants(m.mode777, Other, Write) && Grants(m.mode777, Other, Execute);
    assert Grants(m.mode666, Owner, Read) && Grants(m.mode666, Owner, Write) && !Grants(m.mode666, Owner, Execute);
    assert Grants(m.mode666, Group, Read) && Grants(m.mode666, Group, Write) && !Grants(m.mode666, Group, Execute);
    assert Grants(m.mode666, Other, Read) && Grants(m.mode666, Other, Write) && !Grants(m.mode666, Other, Execute);
    assert Grants(m.mode600, Owner, Read) && Grants(m.mode600, Owner, Write) && !Grants(m.mode600, Owner, Execute);
    assert !Grants(m.mode600, Group, Read) && !Grants(m.mode600, Group, Write) && !Grants(m.mode600, Group, Execute);
    assert !Grants(m.mode600, Other, Read) && !Grants(m.mode600, Other, Write) && !Grants(m.mode600, Other, Execute);
  }
}
