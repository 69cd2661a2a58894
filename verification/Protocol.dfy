/** Wire structures, opcodes and names of src/protocol.rs (FUSE kernel protocol 7.31). */
module Protocol {
  import opened Bytes

  const FUSE_KERNEL_VERSION := 7
  const FUSE_KERNEL_MINOR_VERSION := 31
  const FUSE_MIN_READ_BUFFER := 8192
  const FUSE_ROOT_ID := 1

  // errno values of Linux
  const ENOENT := 2
  const EIO := 5
  const EEXIST := 17
  const ENODEV := 19
  const ENOTDIR := 20
  const EISDIR := 21
  const ERANGE := 34
  const ENOSYS := 38
  const ENOTEMPTY := 39
  const ECONNABORTED := 103

  // Layouts. The comment names the fields in order.

  /** len, opcode, unique, nodeid, uid, gid, pid, total_extlen, padding */
  const IN_HEADER: Layout := U32(U32(U64(U64(U32(U32(U32(U16(U16(End)))))))))
  /** len, error, unique */
  const OUT_HEADER: Layout := U32(U32(U64(End)))
  /** nlookup */
  const FORGET_IN: Layout := U64(End)
  /** count, dummy */
  const BATCH_FORGET_IN: Layout := U32(U32(End))
  /** nodeid, nlookup */
  const FORGET_ONE: Layout := U64(U64(End))
  /** valid, padding, fh, size, lock_owner, atime, mtime, ctime, atimensec, mtimensec, ctimensec, mode,
      unused4, uid, gid, unused5 */
  const SETATTR_IN: Layout :=
    U32(U32(U64(U64(U64(U64(U64(U64(U32(U32(U32(U32(U32(U32(U32(U32(End))))))))))))))))
  /** flags, open_flags */
  const OPEN_IN: Layout := U32(U32(End))
  /** flags, mode, umask, open_flags */
  const CREATE_IN: Layout := U32(U32(U32(U32(End))))
  /** fh, flags, release_flags, lock_owner */
  const RELEASE_IN: Layout := U64(U32(U32(U64(End))))
  /** fh, offset, size, read_flags, lock_owner, flags, padding */
  const READ_IN: Layout := U64(U64(U32(U32(U64(U32(U32(End)))))))
  /** fh, offset, size, write_flags, lock_owner, flags, padding */
  const WRITE_IN: Layout := U64(U64(U32(U32(U64(U32(U32(End)))))))
  /** mode, rdev, umask, padding */
  const MKNOD_IN: Layout := U32(U32(U32(U32(End))))
  /** mode, umask */
  const MKDIR_IN: Layout := U32(U32(End))
  /** newdir, flags, padding */
  const RENAME2_IN: Layout := U64(U32(U32(End)))
  /** size, padding */
  const GETXATTR_IN: Layout := U32(U32(End))
  /** major, minor, max_readahead, flags, flags2, unused */
  const INIT_IN: Layout :=
    U32(U32(U32(U32(U32(U32(U32(U32(U32(U32(U32(U32(U32(U32(U32(U32(End))))))))))))))))
  /** ino, off, namelen, typ */
  const DIRENT: Layout := U64(U64(U32(U32(End))))
  /** ino, size, blocks, atime, mtime, ctime, atimensec, mtimensec, ctimensec, mode, nlink, uid, gid,
      rdev, blksize, flags */
  const ATTR: Layout :=
    U64(U64(U64(U64(U64(U64(U32(U32(U32(U32(U32(U32(U32(U32(U32(U32(End))))))))))))))))
  /** nodeid, generation, entry_valid, attr_valid, entry_valid_nsec, attr_valid_nsec, attr */
  const ENTRY_OUT: Layout := U64(U64(U64(U64(U32(U32(ATTR))))))

  /** attr_valid, attr_valid_nsec, dummy, attr */
  const ATTR_OUT: Layout := U64(U32(U32(ATTR)))
  /** blocks, bfree, bavail, files, ffree, bsize, namelen, frsize, padding, six spare words */
  const KSTATFS: Layout := U64(U64(U64(U64(U64(U32(U32(U32(U32(U32(U32(U32(U32(U32(U32(End)))))))))))))))
  /** fh, open_flags, backing_id */
  const OPEN_OUT: Layout := U64(U32(U32(End)))
  /** size, padding */
  const WRITE_OUT: Layout := U32(U32(End))
  /** size, padding */
  const GETXATTR_OUT: Layout := U32(U32(End))
  /** eleven unused halfwords */
  const UNUSED_11: Layout := U16(U16(U16(U16(U16(U16(U16(U16(U16(U16(U16(End)))))))))))
  /** major, minor, max_readahead, flags, max_background, congestion_threshold, max_write, time_gran,
      max_pages, map_alignment, flags2, max_stack_depth, request_timeout, unused */
  const INIT_OUT: Layout :=
    U32(U32(U32(U32(U16(U16(U32(U32(U16(U16(U32(U32(U16(UNUSED_11)))))))))))))

  lemma WireStructSizes()
    ensures SizeOf(IN_HEADER) == 40 && SizeOf(OUT_HEADER) == 16
    ensures SizeOf(FORGET_IN) == 8 && SizeOf(BATCH_FORGET_IN) == 8 && SizeOf(FORGET_ONE) == 16
    ensures SizeOf(SETATTR_IN) == 88 && SizeOf(OPEN_IN) == 8 && SizeOf(CREATE_IN) == 16
    ensures SizeOf(RELEASE_IN) == 24 && SizeOf(READ_IN) == 40 && SizeOf(WRITE_IN) == 40
    ensures SizeOf(MKNOD_IN) == 16 && SizeOf(MKDIR_IN) == 8 && SizeOf(RENAME2_IN) == 16
    ensures SizeOf(GETXATTR_IN) == 8 && SizeOf(INIT_IN) == 64
    ensures SizeOf(DIRENT) == 24 && SizeOf(ATTR) == 88
  {
  }

  lemma ReplyStructSizes()
    ensures SizeOf(ENTRY_OUT) == 128 && SizeOf(ATTR_OUT) == 104 && SizeOf(KSTATFS) == 80 && SizeOf(OPEN_OUT) == 16
    ensures SizeOf(WRITE_OUT) == 8 && SizeOf(GETXATTR_OUT) == 8 && SizeOf(INIT_OUT) == 64
  {
    EntryOutShape();
    StatfsShape();
    InitOutShape();
  }

  lemma StatfsShape()
    ensures Fields(KSTATFS) == 15 && SizeOf(KSTATFS) == 80
  {
    var words := U32(U32(U32(U32(U32(End)))));
    assert Fields(words) == 5 && SizeOf(words) == 20;
    var words10 := U32(U32(U32(U32(U32(words)))));
    assert Fields(words10) == 10 && SizeOf(words10) == 40;
  }

  lemma InitOutShape()
    ensures Fields(INIT_OUT) == 24 && SizeOf(INIT_OUT) == 64
  {
    var five := U16(U16(U16(U16(U16(End)))));
    assert Fields(five) == 5 && SizeOf(five) == 10;
    assert UNUSED_11 == U16(U16(U16(U16(U16(U16(five))))));
    assert Fields(UNUSED_11) == 11 && SizeOf(UNUSED_11) == 22;
    var tail := U16(U16(U32(U32(U16(UNUSED_11)))));
    assert Fields(tail) == 16 && SizeOf(tail) == 36;
    var mid := U16(U16(U32(U32(tail))));
    assert Fields(mid) == 20 && SizeOf(mid) == 48;
  }

  lemma EntryOutShape()
    ensures Fields(ATTR) == 16 && SizeOf(ATTR) == 88 && Fields(ATTR_OUT) == 19 && SizeOf(ATTR_OUT) == 104
    ensures Fields(ENTRY_OUT) == 22 && SizeOf(ENTRY_OUT) == 128
  {
    var words := U32(U32(U32(U32(U32(End)))));
    assert Fields(words) == 5 && SizeOf(words) == 20;
    var words10 := U32(U32(U32(U32(U32(words)))));
    assert Fields(words10) == 10 && SizeOf(words10) == 40;
    var longs3 := U64(U64(U64(words10)));
    assert Fields(longs3) == 13 && SizeOf(longs3) == 64;
    assert ATTR == U64(U64(U64(longs3)));
    assert Fields(ATTR) == 16 && SizeOf(ATTR) == 88;
    var tail := U64(U64(U32(U32(ATTR))));
    assert Fields(tail) == 20 && SizeOf(tail) == 112;
  }

  // ----- attributes and entries

  datatype Attr = Attr(ino: u64, size: u64, blocks: u64, atime: u64, mtime: u64, ctime: u64,
                       atimensec: u32, mtimensec: u32, ctimensec: u32, mode: u32, nlink: u32,
                       uid: u32, gid: u32, rdev: u32, blksize: u32, flags: u32)

  /** `EntryParam` with its two timeouts already split into seconds and nanoseconds. */
  datatype EntryParam = EntryParam(inode: u64, generation: u64, entryValid: u64, attrValid: u64,
                                   entryValidNsec: u32, attrValidNsec: u32, attr: Attr)

  /** The fields of `fuse_attr` in wire order. */
  function AttrFields(a: Attr): (r: seq<nat>)
    ensures |r| == 16
  {
    [a.ino, a.size, a.blocks, a.atime, a.mtime, a.ctime, a.atimensec, a.mtimensec, a.ctimensec,
     a.mode, a.nlink, a.uid, a.gid, a.rdev, a.blksize, a.flags]
  }

  /** The fields of `fuse_entry_out` in wire order. */
  function EntryFields(e: EntryParam): (r: seq<nat>)
    ensures |r| == 22
  {
    [e.inode, e.generation, e.entryValid, e.attrValid, e.entryValidNsec, e.attrValidNsec] + AttrFields(e.attr)
  }

  function EntryOutBytes(e: EntryParam): (s: seq<byte>)
    ensures |s| == 128
  {
    EntryOutShape();
    Pack(ENTRY_OUT, EntryFields(e))
  }

  /** The attributes in the sixteen fields of a `fuse_attr`. */
  function AttrFrom(f: seq<nat>): Attr
    requires |f| == 16
  {
    Attr(Wrap64(f[0]), Wrap64(f[1]), Wrap64(f[2]), Wrap64(f[3]), Wrap64(f[4]), Wrap64(f[5]),
         Wrap32(f[6]), Wrap32(f[7]), Wrap32(f[8]), Wrap32(f[9]), Wrap32(f[10]),
         Wrap32(f[11]), Wrap32(f[12]), Wrap32(f[13]), Wrap32(f[14]), Wrap32(f[15]))
  }

  function EntryFrom(f: seq<nat>): EntryParam
    requires |f| == 22
  {
    EntryParam(Wrap64(f[0]), Wrap64(f[1]), Wrap64(f[2]), Wrap64(f[3]), Wrap32(f[4]), Wrap32(f[5]), AttrFrom(f[6..]))
  }

  /** The entry a `fuse_entry_out` holds. */
  function EntryFromBytes(s: seq<byte>): EntryParam
    requires |s| >= 128
  {
    EntryOutShape();
    EntryFrom(Unpack(ENTRY_OUT, s))
  }

  lemma AttrFromFields(a: Attr)
    ensures AttrFrom(AttrFields(a)) == a
  {
  }

  lemma FieldsMakeEntry(e: EntryParam)
    ensures EntryFrom(EntryFields(e)) == e
  {
    AttrFromFields(e.attr);
    assert EntryFields(e)[6..] == AttrFields(e.attr);
  }

  lemma AttrFits(a: Attr)
    ensures Representable(ATTR, AttrFields(a))
  {
    var words := [a.uid, a.gid, a.rdev, a.blksize, a.flags] + [];
    var words10 := [a.atimensec, a.mtimensec, a.ctimensec, a.mode, a.nlink] + words;
    WordsFit(End, a.uid, a.gid, a.rdev, a.blksize, a.flags, []);
    WordsFit(U32(U32(U32(U32(U32(End))))), a.atimensec, a.mtimensec, a.ctimensec, a.mode, a.nlink, words);
    AttrLongsFit(a, U32(U32(U32(U32(U32(U32(U32(U32(U32(U32(End)))))))))), words10);
    assert [a.ino, a.size, a.blocks] + ([a.atime, a.mtime, a.ctime] + words10) == AttrFields(a);
  }

  lemma AttrLongsFit(a: Attr, rest: Layout, vs: seq<nat>)
    requires Representable(rest, vs)
    ensures Representable(U64(U64(U64(U64(U64(U64(rest)))))),
                          [a.ino, a.size, a.blocks] + ([a.atime, a.mtime, a.ctime] + vs))
  {
    LongsFit(rest, a.atime, a.mtime, a.ctime, vs);
    LongsFit(U64(U64(U64(rest))), a.ino, a.size, a.blocks, [a.atime, a.mtime, a.ctime] + vs);
  }

  /** The timeouts in front of the attributes. */
  lemma TimeoutsFit(e: EntryParam)
    ensures Representable(U64(U32(U32(ATTR))),
                          [e.attrValid] + ([e.entryValidNsec] + ([e.attrValidNsec] + AttrFields(e.attr))))
  {
    var attr := AttrFields(e.attr);
    AttrFits(e.attr);
    Powers();
    Fits(U32(ATTR), e.attrValidNsec, attr);
    Fits(U32(U32(ATTR)), e.entryValidNsec, [e.attrValidNsec] + attr);
    Fits(U64(U32(U32(ATTR))), e.attrValid, [e.entryValidNsec] + ([e.attrValidNsec] + attr));
  }

  lemma EntryFits(e: EntryParam)
    ensures Representable(ENTRY_OUT, EntryFields(e))
  {
    var tail := [e.attrValid] + ([e.entryValidNsec] + ([e.attrValidNsec] + AttrFields(e.attr)));
    TimeoutsFit(e);
    LongsFit(U64(U32(U32(ATTR))), e.inode, e.generation, e.entryValid, tail);
    assert [e.inode, e.generation, e.entryValid] + tail == EntryFields(e);
  }

  /** Reading an entry back from its bytes, whatever follows them. */
  lemma EntryReadsBack(e: EntryParam, tail: seq<byte>)
    ensures EntryFromBytes(EntryOutBytes(e) + tail) == e
  {
    EntryOutShape();
    EntryFits(e);
    FieldsMakeEntry(e);
    UnpackPack(ENTRY_OUT, EntryFields(e), tail);
  }

  // ----- names

  type Name = seq<byte>

  predicate NulFree(s: seq<byte>)
  {
    forall i :: 0 <= i < |s| ==> s[i] != 0
  }

  /** The position of the first NUL, or the length. */
  function NulPos(s: seq<byte>): (n: nat)
    ensures n <= |s| && NulFree(s[..n]) && (n < |s| ==> s[n] == 0)
  {
    if s == [] || s[0] == 0 then 0
    else
      var n := NulPos(s[1..]);
      assert s[..n + 1] == [s[0]] + s[1..][..n];
      n + 1
  }

  function NameFromBytes(data: seq<byte>): (name: Name)
    ensures NulFree(name) && |name| <= |data|
  {
    data[..NulPos(data)]
  }

  /** None stands for the "truncated" error. */
  function NameAfter(l: Layout, data: seq<byte>): (r: Option<Name>)
    ensures r.Some? <==> |data| >= SizeOf(l)
    ensures r.Some? ==> NulFree(r.value) && |r.value| <= |data|
  {
    if |data| < SizeOf(l) then None else Some(NameFromBytes(data[SizeOf(l)..]))
  }

  /** None stands for the "truncated" and "missing NUL separator" errors. */
  function TwoNamesAfter(l: Layout, data: seq<byte>): (r: Option<(Name, Name)>)
    ensures r.Some? ==> NulFree(r.value.0) && NulFree(r.value.1)
  {
    if |data| < SizeOf(l) then None
    else
      var rest := data[SizeOf(l)..];
      var n := NulPos(rest);
      if n == |rest| then None else Some((rest[..n], NameFromBytes(rest[n + 1..])))
  }

  /** Two names are found exactly if a NUL follows the struct. */
  lemma TwoNamesNeedSeparator(l: Layout, data: seq<byte>)
    ensures TwoNamesAfter(l, data).Some? <==> |data| >= SizeOf(l) && exists i :: SizeOf(l) <= i < |data| && data[i] == 0
  {
    if |data| >= SizeOf(l) {
      var rest := data[SizeOf(l)..];
      var n := NulPos(rest);
      if n == |rest| {
        assert forall i :: SizeOf(l) <= i < |data| ==> data[i] == rest[i - SizeOf(l)] == rest[..n][i - SizeOf(l)];
      } else {
        assert data[SizeOf(l) + n] == 0;
      }
    }
  }

  /** Reading a name stops exactly at its terminator. */
  lemma {:induction false} NulPosOfTerminated(name: Name, tail: seq<byte>)
    requires NulFree(name)
    ensures NulPos(name + [0] + tail) == |name|
    ensures NulPos(name) == |name|
  {
    var s := name + [0] + tail;
    if name != [] {
      assert s[0] == name[0] != 0;
      assert s[1..] == name[1..] + [0] + tail;
      NulPosOfTerminated(name[1..], tail);
    }
  }
}
