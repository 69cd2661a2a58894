/** Replies made of wire structs: their bytes, and how the kernel reads them. */
module WireReplies {
  import opened Bytes
  import opened Protocol

  /** The fields of `fuse_kstatfs` that are not always zero. */
  datatype Statfs = Statfs(blocks: u64, bfree: u64, bavail: u64, files: u64, ffree: u64,
                           bsize: u32, namelen: u32, frsize: u32)

  /** What is replied. Timeouts are split into seconds and nanoseconds; `flags` are the open flags of
      the request's `FuseFileInfo`. */
  datatype StructOut =
    | EntryReply(entry: EntryParam)
    | AttrReply(valid: u64, validNsec: u32, attr: Attr)
    | StatfsReply(stat: Statfs)
    | OpenReply(fh: u64, flags: u32)
    | CreateReply(entry: EntryParam, fh: u64, flags: u32)

  datatype Kind = AnEntry | Attributes | Statistics | AHandle | AnEntryAndHandle

  function KindOf(out: StructOut): Kind
  {
    match out
    case EntryReply(_) => AnEntry
    case AttrReply(_, _, _) => Attributes
    case StatfsReply(_) => Statistics
    case OpenReply(_, _) => AHandle
    case CreateReply(_, _, _) => AnEntryAndHandle
  }

  /** `size_of` of the struct, or of the two. */
  function SizeOfKind(k: Kind): nat
  {
    match k
    case AnEntry => 128
    case Attributes => 104
    case Statistics => 80
    case AHandle => 16
    case AnEntryAndHandle => 144
  }

  lemma KindSizes()
    ensures SizeOfKind(AnEntry) == SizeOf(ENTRY_OUT) && SizeOfKind(Attributes) == SizeOf(ATTR_OUT)
    ensures SizeOfKind(Statistics) == SizeOf(KSTATFS) && SizeOfKind(AHandle) == SizeOf(OPEN_OUT)
    ensures SizeOfKind(AnEntryAndHandle) == SizeOf(ENTRY_OUT) + SizeOf(OPEN_OUT)
  {
    ReplyStructSizes();
  }

  function AttrOutBytes(valid: u64, validNsec: u32, a: Attr): (s: seq<byte>)
    ensures |s| == 104
  {
    EntryOutShape();
    Pack(ATTR_OUT, [valid, validNsec, 0] + AttrFields(a))
  }

  /** The fields of `fuse_kstatfs` in wire order. */
  function StatfsFields(s: Statfs): (r: seq<nat>)
    ensures |r| == 15
  {
    [s.blocks, s.bfree, s.bavail, s.files, s.ffree, s.bsize, s.namelen, s.frsize, 0, 0, 0, 0, 0, 0, 0]
  }

  function StatfsBytes(s: Statfs): (r: seq<byte>)
    ensures |r| == 80
  {
    StatfsShape();
    Pack(KSTATFS, StatfsFields(s))
  }

  function OpenOutBytes(fh: u64, flags: u32): (s: seq<byte>)
    ensures |s| == 16
  {
    Pack(OPEN_OUT, [fh, flags, 0])
  }

  /** The bytes sent. */
  function StructBytes(out: StructOut): (s: seq<byte>)
    ensures |s| == SizeOfKind(KindOf(out))
  {
    match out
    case EntryReply(e) => EntryOutBytes(e)
    case AttrReply(valid, validNsec, a) => AttrOutBytes(valid, validNsec, a)
    case StatfsReply(s) => StatfsBytes(s)
    case OpenReply(fh, flags) => OpenOutBytes(fh, flags)
    case CreateReply(e, fh, flags) => EntryOutBytes(e) + OpenOutBytes(fh, flags)
  }

  // ----- how the kernel reads them

  function AttrOutFrom(s: seq<byte>): StructOut
    requires |s| == 104
  {
    EntryOutShape();
    var f := Unpack(ATTR_OUT, s);
    AttrReply(Wrap64(f[0]), Wrap32(f[1]), AttrFrom(f[3..]))
  }

  function StatfsFrom(s: seq<byte>): Statfs
    requires |s| == 80
  {
    StatfsShape();
    var f := Unpack(KSTATFS, s);
    Statfs(Wrap64(f[0]), Wrap64(f[1]), Wrap64(f[2]), Wrap64(f[3]), Wrap64(f[4]), Wrap32(f[5]), Wrap32(f[6]),
        Wrap32(f[7]))
  }

  /** The handle and the flags. */
  function OpenOutFrom(s: seq<byte>): (u64, u32)
    requires |s| == 16
  {
    var f := Unpack(OPEN_OUT, s);
    (Wrap64(f[0]), Wrap32(f[1]))
  }

  /** The kernel takes exactly the struct that belongs to the request. */
  function StructFrom(k: Kind, s: seq<byte>): Option<StructOut>
  {
    if |s| != SizeOfKind(k) then None
    else match k
      case AnEntry => Some(EntryReply(EntryFromBytes(s)))
      case Attributes => Some(AttrOutFrom(s))
      case Statistics => Some(StatfsReply(StatfsFrom(s)))
      case AHandle => var (fh, flags) := OpenOutFrom(s); Some(OpenReply(fh, flags))
      case AnEntryAndHandle =>
        var (fh, flags) := OpenOutFrom(s[128..]);
        Some(CreateReply(EntryFromBytes(s[..128]), fh, flags))
  }

  lemma AttrOutReadsBack(valid: u64, validNsec: u32, a: Attr)
    ensures AttrOutFrom(AttrOutBytes(valid, validNsec, a)) == AttrReply(valid, validNsec, a)
  {
    var f := [valid, validNsec, 0] + AttrFields(a);
    EntryOutShape();
    AttrOutFits(valid, validNsec, a);
    UnpackPack(ATTR_OUT, f, []);
    assert AttrOutBytes(valid, validNsec, a) + [] == AttrOutBytes(valid, validNsec, a);
    assert f[3..] == AttrFields(a);
    AttrFromFields(a);
  }

  lemma AttrOutFits(valid: u64, validNsec: u32, a: Attr)
    ensures Representable(ATTR_OUT, [valid, validNsec, 0] + AttrFields(a))
  {
    var f := AttrFields(a);
    AttrFits(a);
    Powers();
    Fits(U32(ATTR), 0, f);
    Fits(U32(U32(ATTR)), validNsec, [0] + f);
    Fits(ATTR_OUT, valid, [validNsec] + ([0] + f));
    assert [valid] + ([validNsec] + ([0] + f)) == [valid, validNsec, 0] + f;
  }

  lemma StatfsFits(s: Statfs)
    ensures Representable(KSTATFS, StatfsFields(s))
  {
    var spare := [0, 0, 0, 0, 0] + [];
    var words := [s.bsize, s.namelen, s.frsize, 0, 0] + spare;
    var l10 := U32(U32(U32(U32(U32(U32(U32(U32(U32(U32(End))))))))));
    Powers();
    WordsFit(End, 0, 0, 0, 0, 0, []);
    WordsFit(U32(U32(U32(U32(U32(End))))), s.bsize, s.namelen, s.frsize, 0, 0, spare);
    Fits(U64(l10), s.ffree, words);
    Fits(U64(U64(l10)), s.files, [s.ffree] + words);
    LongsFit(U64(U64(l10)), s.blocks, s.bfree, s.bavail, [s.files] + ([s.ffree] + words));
    assert [s.blocks, s.bfree, s.bavail] + ([s.files] + ([s.ffree] + words)) == StatfsFields(s);
  }

  lemma StatfsReadsBack(s: Statfs)
    ensures StatfsFrom(StatfsBytes(s)) == s
  {
    StatfsShape();
    StatfsFits(s);
    UnpackPack(KSTATFS, StatfsFields(s), []);
    assert StatfsBytes(s) + [] == StatfsBytes(s);
  }

  lemma OpenOutReadsBack(fh: u64, flags: u32)
    ensures OpenOutFrom(OpenOutBytes(fh, flags)) == (fh, flags)
  {
    Powers();
    Fits(U32(End), 0, []);
    Fits(U32(U32(End)), flags, [0] + []);
    Fits(OPEN_OUT, fh, [flags] + ([0] + []));
    assert [fh] + ([flags] + ([0] + [])) == [fh, flags, 0];
    UnpackPack(OPEN_OUT, [fh, flags, 0], []);
    assert OpenOutBytes(fh, flags) + [] == OpenOutBytes(fh, flags);
  }

  lemma EntryReplyReadsBack(e: EntryParam)
    ensures StructFrom(AnEntry, EntryOutBytes(e)) == Some(EntryReply(e))
  {
    EntryReadsBack(e, []);
    assert EntryOutBytes(e) + [] == EntryOutBytes(e);
  }

  lemma AttrReplyReadsBack(valid: u64, validNsec: u32, a: Attr)
    ensures StructFrom(Attributes, AttrOutBytes(valid, validNsec, a)) == Some(AttrReply(valid, validNsec, a))
  {
    AttrOutReadsBack(valid, validNsec, a);
  }

  lemma StatfsReplyReadsBack(s: Statfs)
    ensures StructFrom(Statistics, StatfsBytes(s)) == Some(StatfsReply(s))
  {
    StatfsReadsBack(s);
  }

  lemma OpenReplyReadsBack(fh: u64, flags: u32)
    ensures StructFrom(AHandle, OpenOutBytes(fh, flags)) == Some(OpenReply(fh, flags))
  {
    OpenOutReadsBack(fh, flags);
  }

  lemma CreateReplyReadsBack(e: EntryParam, fh: u64, flags: u32)
    ensures StructFrom(AnEntryAndHandle, EntryOutBytes(e) + OpenOutBytes(fh, flags)) == Some(CreateReply(e, fh, flags))
  {
    var s := EntryOutBytes(e) + OpenOutBytes(fh, flags);
    EntryReadsBack(e, []);
    OpenOutReadsBack(fh, flags);
    assert EntryOutBytes(e) + [] == EntryOutBytes(e);
    assert s[..128] == EntryOutBytes(e) && s[128..] == OpenOutBytes(fh, flags);
  }

  /** The round trip: what the kernel reads is what was replied. */
  lemma StructReadsBack(out: StructOut)
    ensures StructFrom(KindOf(out), StructBytes(out)) == Some(out)
  {
    match out {
      case EntryReply(e) => EntryReplyReadsBack(e);
      case AttrReply(valid, validNsec, a) => AttrReplyReadsBack(valid, validNsec, a);
      case StatfsReply(s) => StatfsReplyReadsBack(s);
      case OpenReply(fh, flags) => OpenReplyReadsBack(fh, flags);
      case CreateReply(e, fh, flags) => CreateReplyReadsBack(e, fh, flags);
    }
  }

  // ----- sizes

  /** `FuseWriteOut` and `FuseGetxattrOut` */
  function SizeOut(size: nat): (s: seq<byte>)
    ensures |s| == SizeOf(WRITE_OUT) == SizeOf(GETXATTR_OUT)
  {
    Pack(WRITE_OUT, [size, 0])
  }

  /** The size reads back exactly if it fits its field. */
  lemma SizeReadsBack(size: nat)
    ensures Unpack(WRITE_OUT, SizeOut(size))[0] == size <==> size < 0x1_0000_0000
    ensures Unpack(GETXATTR_OUT, SizeOut(size)) == Unpack(WRITE_OUT, SizeOut(size))
  {
    UnpackRepresentable(WRITE_OUT, SizeOut(size));
    Powers();
    if size < 0x1_0000_0000 {
      Fits(U32(End), 0, []);
      Fits(WRITE_OUT, size, [0] + []);
      assert [size] + ([0] + []) == [size, 0];
      UnpackPack(WRITE_OUT, [size, 0], []);
      assert SizeOut(size) + [] == SizeOut(size);
    }
  }
}
