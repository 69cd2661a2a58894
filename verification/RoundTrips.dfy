/** Messages in the layout of `<linux/fuse.h>` decode to what was encoded. */
module RoundTrips {
  import opened Bytes
  import opened Protocol
  import opened Messages
  import Opcodes

  /** `fuse_setattr_in` */
  datatype SetattrIn = SetattrIn(valid: u32, padding: u32, fh: u64, size: u64, lockOwner: u64,
                                 atime: u64, mtime: u64, ctime: u64, atimensec: u32, mtimensec: u32, ctimensec: u32,
                                 mode: u32, unused4: u32, uid: u32, gid: u32, unused5: u32)

  /** Its fields in wire order. */
  function SetattrValues(f: SetattrIn): (r: seq<nat>)
    ensures |r| == 16
  {
    [f.valid, f.padding, f.fh, f.size, f.lockOwner, f.atime, f.mtime, f.ctime,
     f.atimensec, f.mtimensec, f.ctimensec, f.mode, f.unused4, f.uid, f.gid, f.unused5]
  }

  /** What the kernel may ask, as its own structs hold it. Fields the server ignores are there too. */
  datatype KernelRequest =
    | KLookup(name: Name)
    | KForget(nlookup: u64)
    | KBatchForget(items: seq<(u64, u64)>)
    | KGetattr(ignored: seq<byte>)
    | KSetattr(fields: SetattrIn)
    | KReadlink
    | KMknod(mode: u32, rdev: u32, umask: u32, name: Name)
    | KMkdir(mode: u32, umask: u32, name: Name)
    | KUnlink(name: Name)
    | KRmdir(name: Name)
    | KRename2(newdir: u64, flags: u32, name: Name, newName: Name)
    | KOpen(flags: u32, openFlags: u32)
    | KRead(kind: ReadKind, handle: u64, offset: u64, size: u32, readFlags: u32, lockOwner: u64, flags: u32)
    | KWrite(handle: u64, offset: u64, writeFlags: u32, lockOwner: u64, flags: u32, data: seq<byte>)
    | KStatfs
    | KRelease(handle: u64, flags: u32, releaseFlags: u32, lockOwner: u64)
    | KGetxattr(size: u32, name: Name)
    | KListxattr(size: u32)
    | KCreate(flags: u32, mode: u32, umask: u32, openFlags: u32, name: Name)
    | KInterrupt(ofUnique: u64)
    | KDestroy

  function OpcodeOf(k: KernelRequest): Opcodes.Opcode
  {
    match k
    case KLookup(_) => Opcodes.Lookup
    case KForget(_) => Opcodes.Forget
    case KBatchForget(_) => Opcodes.BatchForget
    case KGetattr(_) => Opcodes.Getattr
    case KSetattr(_) => Opcodes.Setattr
    case KReadlink => Opcodes.Readlink
    case KMknod(_, _, _, _) => Opcodes.Mknod
    case KMkdir(_, _, _) => Opcodes.Mkdir
    case KUnlink(_) => Opcodes.Unlink
    case KRmdir(_) => Opcodes.Rmdir
    case KRename2(_, _, _, _) => Opcodes.Rename2
    case KOpen(_, _) => Opcodes.Open
    case KRead(kind, _, _, _, _, _, _) => OpOfRead(kind)
    case KWrite(_, _, _, _, _, _) => Opcodes.Write
    case KStatfs => Opcodes.Statfs
    case KRelease(_, _, _, _) => Opcodes.Release
    case KGetxattr(_, _) => Opcodes.Getxattr
    case KListxattr(_) => Opcodes.Listxattr
    case KCreate(_, _, _, _, _) => Opcodes.Create
    case KInterrupt(_) => Opcodes.Interrupt
    case KDestroy => Opcodes.Destroy
  }

  /** What the kernel guarantees: names without NUL, sizes that fit their fields. */
  predicate Proper(k: KernelRequest)
  {
    match k
    case KLookup(n) => NulFree(n)
    case KBatchForget(items) => |items| < 0x1_0000_0000
    case KMknod(_, _, _, n) => NulFree(n)
    case KMkdir(_, _, n) => NulFree(n)
    case KUnlink(n) => NulFree(n)
    case KRmdir(n) => NulFree(n)
    case KRename2(_, _, n, m) => NulFree(n) && NulFree(m)
    case KWrite(_, _, _, _, _, data) => |data| < 0x1_0000_0000
    case KGetxattr(_, n) => NulFree(n)
    case KCreate(_, _, _, _, n) => NulFree(n)
    case _ => true
  }

  function Items(items: seq<(u64, u64)>): seq<byte>
  {
    if items == [] then [] else Pack(FORGET_ONE, [items[0].0, items[0].1]) + Items(items[1..])
  }

  /** A struct and what follows it. */
  function Packed(l: Layout, vs: seq<nat>, tail: seq<byte>): (r: seq<byte>)
    requires |vs| == Fields(l)
    ensures |r| == SizeOf(l) + |tail|
  {
    Pack(l, vs) + tail
  }

  function Terminated(name: Name): seq<byte> { name + [0] }

  function BothTerminated(name: Name, newName: Name): seq<byte> { name + [0] + (newName + [0]) }

  function ReadBytes(handle: u64, offset: u64, size: u32, a: u32, owner: u64, b: u32, data: seq<byte>): seq<byte>
  {
    ReadFields();
    Packed(READ_IN, [handle, offset, size, a, owner, b, 0], data)
  }

  function SetattrBytes(f: SetattrIn): seq<byte>
  {
    SetattrFields();
    Packed(SETATTR_IN, SetattrValues(f), [])
  }

  /** The body behind the header; names end in a NUL. */
  function Payload(k: KernelRequest): seq<byte>
    requires Proper(k)
  {
    match k
    case KLookup(n) => Terminated(n)
    case KForget(c) => Packed(FORGET_IN, [c], [])
    case KBatchForget(items) => Packed(BATCH_FORGET_IN, [|items|, 0], Items(items))
    case KGetattr(ignored) => ignored
    case KSetattr(f) => SetattrBytes(f)
    case KReadlink => []
    case KMknod(mode, rdev, umask, n) => Packed(MKNOD_IN, [mode, rdev, umask, 0], Terminated(n))
    case KMkdir(mode, umask, n) => Packed(MKDIR_IN, [mode, umask], Terminated(n))
    case KUnlink(n) => Terminated(n)
    case KRmdir(n) => Terminated(n)
    case KRename2(newdir, flags, n, m) => Packed(RENAME2_IN, [newdir, flags, 0], BothTerminated(n, m))
    case KOpen(flags, openFlags) => Packed(OPEN_IN, [flags, openFlags], [])
    case KRead(_, handle, offset, size, a, owner, b) => ReadBytes(handle, offset, size, a, owner, b, [])
    case KWrite(handle, offset, a, owner, b, data) => ReadBytes(handle, offset, |data|, a, owner, b, data)
    case KStatfs => []
    case KRelease(handle, a, b, owner) => Packed(RELEASE_IN, [handle, a, b, owner], [])
    case KGetxattr(size, n) => Packed(GETXATTR_IN, [size, 0], Terminated(n))
    case KListxattr(size) => Packed(GETXATTR_IN, [size, 0], [])
    case KCreate(flags, mode, umask, openFlags, n) => Packed(CREATE_IN, [flags, mode, umask, openFlags], Terminated(n))
    case KInterrupt(u) => LE(u, 8)
    case KDestroy => []
  }

  /** Who sends a message and about which inode. */
  datatype Sender = Sender(unique: u64, node: u64, uid: u32, gid: u32, pid: u32, extlen: u16)

  function HeaderFields(s: Sender, len: nat, op: nat): (vs: seq<nat>)
    ensures |vs| == 9
  {
    [len, op, s.unique, s.node, s.uid, s.gid, s.pid, s.extlen, 0]
  }

  function Framed(s: Sender, op: nat, payload: seq<byte>): seq<byte>
  {
    HeaderShape();
    Packed(IN_HEADER, HeaderFields(s, IN_HEADER_SIZE + |payload|, op), payload)
  }

  function Message(s: Sender, k: KernelRequest): seq<byte>
    requires Proper(k)
  {
    Framed(s, Opcodes.ToU32(OpcodeOf(k)), Payload(k))
  }

  /** The requests the client must see, and what happens to the guard, if the operation is enabled. */
  function Meant(s: Sender, k: KernelRequest): Decoded
    requires Proper(k)
  {
    match k
    case KLookup(n) => Accept(s.unique, ReqLookup(s.node, n))
    case KForget(c) => Accept(s.unique, ReqForget(s.node, c))
    case KBatchForget(items) =>
      Decoded(Forgets(items), false, false, false)
    case KGetattr(_) => Accept(s.unique, ReqGetattr(s.node))
    case KSetattr(f) => Accept(s.unique, MeantSetattr(s.node, f))
    case KReadlink => Accept(s.unique, ReqReadlink(s.node))
    case KMknod(mode, rdev, _, n) => Accept(s.unique, ReqMknod(s.node, n, mode, rdev))
    case KMkdir(mode, _, n) => Accept(s.unique, ReqMkdir(s.node, n, mode))
    case KUnlink(n) => Accept(s.unique, ReqUnlink(s.node, n))
    case KRmdir(n) => Accept(s.unique, ReqRmdir(s.node, n))
    case KRename2(newdir, flags, n, m) => Accept(s.unique, ReqRename(s.node, n, newdir, m, AsI32(flags)))
    case KOpen(flags, _) => Accept(s.unique, ReqOpen(s.node, AsI32(flags)))
    case KRead(kind, handle, offset, size, _, _, _) =>
      Accept(s.unique, match kind
                       case Plain => ReqRead(s.node, handle, size, offset)
                       case Dir => ReqReaddir(s.node, size, offset)
                       case DirPlus => ReqReaddirPlus(s.node, size, offset))
    case KWrite(handle, offset, _, _, _, data) =>
      Accept(s.unique, ReqWrite(s.node, handle, WRITE_DATA_OFFSET, |data|, offset, data))
    case KStatfs => Accept(s.unique, ReqStatfs(s.node))
    case KRelease(handle, flags, _, _) => Accept(s.unique, ReqRelease(s.node, handle, AsI32(flags)))
    case KGetxattr(size, n) =>
      Accept(s.unique, if size == 0 then ReqGetXAttrSize(s.node, n) else ReqGetXAttr(s.node, n, size))
    case KListxattr(size) =>
      Accept(s.unique, if size == 0 then ReqListXAttrSize(s.node) else ReqListXAttr(s.node, size))
    case KCreate(_, mode, _, _, n) => Accept(s.unique, ReqCreate(s.node, n, mode))
    case KInterrupt(_) => Reject
    case KDestroy => Finish
  }

  /** Known flags only, the handle if it is marked, and sizes and times as signed numbers. */
  function MeantSetattr(node: u64, f: SetattrIn): Body
  {
    var valid := f.valid as bv32 & FATTR_ALL;
    ReqSetattr(node, if Has(valid, FATTR_FH) then Some(f.fh) else None, valid, MeantStat(f))
  }

  function MeantStat(f: SetattrIn): SetStat
  {
    SetStat(f.mode, f.uid, f.gid, AsI64(f.size), AsI64(f.atime), f.atimensec,
            AsI64(f.mtime), f.mtimensec, AsI64(f.ctime), f.ctimensec)
  }

  /** The requests the client must see. Forgets nobody wants are dropped silently, everything else that
      is not enabled is rejected. */
  function Expected(ops: Ops, s: Sender, k: KernelRequest): Decoded
    requires Proper(k)
  {
    if Enabled(ops, OpcodeOf(k)) then Meant(s, k)
    else if k.KForget? || k.KBatchForget? then Nothing
    else Reject
  }

  // ----- structs

  lemma DropPrefix(head: seq<byte>, tail: seq<byte>)
    ensures (head + tail)[|head|..] == tail && (head + tail)[..|head|] == head
  {
  }

  /** A struct that was packed is read back, and so is a name behind it. */
  lemma PackedReads(l: Layout, vs: seq<nat>, tail: seq<byte>)
    requires Representable(l, vs) && |vs| == Fields(l)
    ensures ReadBody(l, Packed(l, vs, tail)) == Some(vs)
    ensures NameAfter(l, Packed(l, vs, tail)) == Some(NameFromBytes(tail))
    ensures TwoNamesAfter(l, Packed(l, vs, tail)) ==
              if NulPos(tail) == |tail| then None
              else Some((tail[..NulPos(tail)], NameFromBytes(tail[NulPos(tail) + 1..])))
    ensures Packed(l, vs, tail)[SizeOf(l)..] == tail
  {
    UnpackPack(l, vs, tail);
    DropPrefix(Pack(l, vs), tail);
  }

  lemma TerminatedReads(name: Name)
    requires NulFree(name)
    ensures NameFromBytes(Terminated(name)) == name
  {
    NulPosOfTerminated(name, []);
    assert name + [0] + [] == Terminated(name);
    DropPrefix(name, [0]);
  }

  lemma BothTerminatedRead(name: Name, newName: Name)
    requires NulFree(name) && NulFree(newName)
    ensures var tail := BothTerminated(name, newName);
            && NulPos(tail) == |name| < |tail| && tail[..|name|] == name
            && NameFromBytes(tail[|name| + 1..]) == newName
  {
    NulPosOfTerminated(name, newName + [0]);
    TerminatedReads(newName);
    DropPrefix(name + [0], newName + [0]);
    assert BothTerminated(name, newName) == name + ([0] + (newName + [0]));
    DropPrefix(name, [0] + (newName + [0]));
  }

  lemma Fits2(l: Layout, a: nat, b: nat)
    requires l.U32? && l.rest.U32? && l.rest.rest.End? && a < 0x1_0000_0000 && b < 0x1_0000_0000
    ensures Representable(l, [a, b])
  {
    Powers();
    Fits(l.rest, b, []);
    Fits(l, a, [b]);
    assert [a] + [b] == [a, b];
  }

  lemma Fits4(l: Layout, a: nat, b: nat, c: nat, d: nat)
    requires l.U32? && l.rest.U32? && l.rest.rest.U32? && l.rest.rest.rest.U32? && l.rest.rest.rest.rest.End?
    requires a < 0x1_0000_0000 && b < 0x1_0000_0000 && c < 0x1_0000_0000 && d < 0x1_0000_0000
    ensures Representable(l, [a, b, c, d])
  {
    Powers();
    Fits2(l.rest.rest, c, d);
    Fits(l.rest, b, [c, d]);
    Fits(l, a, [b, c, d]);
    assert [b] + [c, d] == [b, c, d] && [a] + [b, c, d] == [a, b, c, d];
  }

  /** fh, offset, size, flags, lock_owner, flags, padding: the layout of both reads and writes. */
  lemma FitsRead(handle: u64, offset: u64, size: u32, a: u32, owner: u64, b: u32)
    ensures READ_IN == WRITE_IN
    ensures Representable(READ_IN, [handle, offset, size, a, owner, b, 0])
  {
    Powers();
    Fits2(U32(U32(End)), b, 0);
    Fits(U64(U32(U32(End))), owner, [b, 0]);
    Fits(U32(U64(U32(U32(End)))), a, [owner] + [b, 0]);
    Fits(U32(U32(U64(U32(U32(End))))), size, [a] + ([owner] + [b, 0]));
    Fits(U64(U32(U32(U64(U32(U32(End)))))), offset, [size] + ([a] + ([owner] + [b, 0])));
    Fits(READ_IN, handle, [offset] + ([size] + ([a] + ([owner] + [b, 0]))));
    assert [handle] + ([offset] + ([size] + ([a] + ([owner] + [b, 0])))) == [handle, offset, size, a, owner, b, 0];
  }

  lemma FitsRelease(handle: u64, a: u32, b: u32, owner: u64)
    ensures Representable(RELEASE_IN, [handle, a, b, owner])
  {
    Powers();
    Fits(U64(End), owner, []);
    Fits(U32(U64(End)), b, [owner] + []);
    Fits(U32(U32(U64(End))), a, [b] + ([owner] + []));
    Fits(RELEASE_IN, handle, [a] + ([b] + ([owner] + [])));
    assert [handle] + ([a] + ([b] + ([owner] + []))) == [handle, a, b, owner];
  }

  lemma FitsRename(newdir: u64, flags: u32)
    ensures Representable(RENAME2_IN, [newdir, flags, 0])
  {
    Powers();
    Fits2(U32(U32(End)), flags, 0);
    Fits(RENAME2_IN, newdir, [flags, 0]);
    assert [newdir] + [flags, 0] == [newdir, flags, 0];
  }

  lemma FitsForget(a: u64, b: u64)
    ensures Representable(FORGET_IN, [a]) && Representable(FORGET_ONE, [a, b])
  {
    Powers();
    Fits(FORGET_IN, a, []);
    Fits(U64(End), b, []);
    Fits(FORGET_ONE, a, [b] + []);
    assert [a] + [] == [a] && [a] + ([b] + []) == [a, b];
  }

  lemma FitsHeader(len: u32, op: u32, s: Sender)
    ensures Representable(IN_HEADER, [len, op, s.unique, s.node, s.uid, s.gid, s.pid, s.extlen, 0])
  {
    Powers();
    Fits(U16(End), 0, []);
    Fits(U16(U16(End)), s.extlen, [0] + []);
    var l3 := U32(U16(U16(End)));
    Fits(l3, s.pid, [s.extlen] + ([0] + []));
    Fits(U32(l3), s.gid, [s.pid] + ([s.extlen] + ([0] + [])));
    Fits(U32(U32(l3)), s.uid, [s.gid] + ([s.pid] + ([s.extlen] + ([0] + []))));
    var five := [s.uid] + ([s.gid] + ([s.pid] + ([s.extlen] + ([0] + []))));
    assert five == [s.uid, s.gid, s.pid, s.extlen, 0];
    var l6 := U64(U32(U32(l3)));
    Fits(l6, s.node, five);
    Fits(U64(l6), s.unique, [s.node] + five);
    Fits(U32(U64(l6)), op, [s.unique] + ([s.node] + five));
    Fits(IN_HEADER, len, [op] + ([s.unique] + ([s.node] + five)));
    HeaderPieces(len, op, s);
  }

  lemma HeaderPieces(len: u32, op: u32, s: Sender)
    ensures [len] + ([op] + ([s.unique] + ([s.node] + [s.uid, s.gid, s.pid, s.extlen, 0])))
            == [len, op, s.unique, s.node, s.uid, s.gid, s.pid, s.extlen, 0]
  {
  }

  // ----- each kind of message

  function Forgets(items: seq<(u64, u64)>): seq<Request>
  {
    if items == [] then [] else [Request(0, ReqForget(items[0].0, items[0].1))] + Forgets(items[1..])
  }

  lemma {:induction false} ItemsDecode(items: seq<(u64, u64)>)
    ensures BatchRecords(|items|, Items(items)) == Forgets(items)
  {
    if items != [] {
      OneItemDecodes(items[0].0, items[0].1, |items|, Items(items[1..]));
      ItemsDecode(items[1..]);
    }
  }

  lemma OneItemDecodes(node: u64, nlookup: u64, count: nat, tail: seq<byte>)
    requires count > 0
    ensures BatchRecords(count, Pack(FORGET_ONE, [node, nlookup]) + tail) ==
              [Request(0, ReqForget(node, nlookup))] + BatchRecords(count - 1, tail)
  {
    FitsForget(node, nlookup);
    OneRecordSize();
    UnpackPack(FORGET_ONE, [node, nlookup], tail);
    DropPrefix(Pack(FORGET_ONE, [node, nlookup]), tail);
  }

  lemma BatchForgetDecodes(ops: Ops, items: seq<(u64, u64)>)
    requires |items| < 0x1_0000_0000 && ops.forget
    ensures DecodeBatchForget(ops, Packed(BATCH_FORGET_IN, [|items|, 0], Items(items))) ==
              Decoded(Forgets(items), false, false, false)
  {
    ItemsDecode(items);
    BatchBytesDecode(ops, |items|, Items(items), Forgets(items));
  }

  lemma BatchBytesDecode(ops: Ops, count: u32, records: seq<byte>, forgets: seq<Request>)
    requires ops.forget && BatchRecords(count, records) == forgets
    ensures DecodeBatchForget(ops, Packed(BATCH_FORGET_IN, [count, 0], records)) ==
              Decoded(forgets, false, false, false)
  {
    Fits2(BATCH_FORGET_IN, count, 0);
    PackedReads(BATCH_FORGET_IN, [count, 0], records);
    BatchDecodes(ops, Packed(BATCH_FORGET_IN, [count, 0], records), count, records, forgets);
  }

  lemma BatchDecodes(ops: Ops, body: seq<byte>, count: nat, records: seq<byte>, forgets: seq<Request>)
    requires ops.forget && ReadBody(BATCH_FORGET_IN, body) == Some([count, 0])
    requires body[SizeOf(BATCH_FORGET_IN)..] == records && BatchRecords(count, records) == forgets
    ensures DecodeBatchForget(ops, body) == Decoded(forgets, false, false, false)
  {
  }

  lemma ForgetDecodes(ops: Ops, u: u64, node: u64, count: u64)
    ensures DecodeForget(ops, u, node, Packed(FORGET_IN, [count], [])) ==
              if ops.forget then Accept(u, ReqForget(node, count)) else Nothing
  {
    FitsForget(count, 0);
    PackedReads(FORGET_IN, [count], []);
  }

  /** The mode and what follows it. */
  lemma SetattrWordsFit(f: SetattrIn)
    ensures Representable(U32(U32(U32(U32(U32(U32(U32(U32(End)))))))),
                          [f.atimensec, f.mtimensec, f.ctimensec, f.mode, f.unused4] + [f.uid, f.gid, f.unused5])
  {
    Powers();
    Fits(U32(End), f.unused5, []);
    Fits(U32(U32(End)), f.gid, [f.unused5] + []);
    Fits(U32(U32(U32(End))), f.uid, [f.gid] + ([f.unused5] + []));
    assert [f.uid] + ([f.gid] + ([f.unused5] + [])) == [f.uid, f.gid, f.unused5];
    WordsFit(U32(U32(U32(End))), f.atimensec, f.mtimensec, f.ctimensec, f.mode, f.unused4, [f.uid, f.gid, f.unused5]);
  }

  lemma SetattrLongsFit(f: SetattrIn, rest: Layout, vs: seq<nat>)
    requires Representable(rest, vs)
    ensures Representable(U64(U64(U64(U64(U64(U64(rest)))))),
                          [f.fh, f.size, f.lockOwner] + ([f.atime, f.mtime, f.ctime] + vs))
  {
    LongsFit(rest, f.atime, f.mtime, f.ctime, vs);
    LongsFit(U64(U64(U64(rest))), f.fh, f.size, f.lockOwner, [f.atime, f.mtime, f.ctime] + vs);
  }

  lemma SetattrPieces(f: SetattrIn)
    ensures [f.valid, f.padding] + ([f.fh, f.size, f.lockOwner] + ([f.atime, f.mtime, f.ctime]
              + ([f.atimensec, f.mtimensec, f.ctimensec, f.mode, f.unused4] + [f.uid, f.gid, f.unused5])))
            == SetattrValues(f)
  {
  }

  lemma SetattrFits(f: SetattrIn)
    ensures Representable(SETATTR_IN, SetattrValues(f))
  {
    var words := [f.atimensec, f.mtimensec, f.ctimensec, f.mode, f.unused4] + [f.uid, f.gid, f.unused5];
    var l8 := U32(U32(U32(U32(U32(U32(U32(U32(End))))))));
    SetattrWordsFit(f);
    SetattrLongsFit(f, l8, words);
    SetattrHeadFits(f, U64(U64(U64(U64(U64(U64(l8)))))),
                    [f.fh, f.size, f.lockOwner] + ([f.atime, f.mtime, f.ctime] + words));
    SetattrPieces(f);
  }

  lemma SetattrHeadFits(f: SetattrIn, rest: Layout, vs: seq<nat>)
    requires Representable(rest, vs)
    ensures Representable(U32(U32(rest)), [f.valid, f.padding] + vs)
  {
    Powers();
    Fits(U32(rest), f.padding, vs);
    Fits(U32(U32(rest)), f.valid, [f.padding] + vs);
    assert [f.valid] + ([f.padding] + vs) == [f.valid, f.padding] + vs;
  }

  lemma SetattrDecodes(u: u64, node: u64, f: SetattrIn)
    ensures DecodeSetattr(u, node, SetattrBytes(f)) == Accept(u, MeantSetattr(node, f))
  {
    SetattrFields();
    SetattrFits(f);
    PackedReads(SETATTR_IN, SetattrValues(f), []);
    SetattrOfValues(node, f);
  }

  lemma StatOfValues(f: SetattrIn)
    ensures StatOf(SetattrValues(f)) == MeantStat(f)
  {
  }

  lemma SetattrOfValues(node: u64, f: SetattrIn)
    ensures SetattrOf(node, SetattrValues(f)) == MeantSetattr(node, f)
  {
    var v := SetattrValues(f);
    assert v[0] == f.valid && v[2] == f.fh;
    StatOfValues(f);
    FlagsOfValues(node, v, f);
  }

  lemma FlagsOfValues(node: u64, v: seq<nat>, f: SetattrIn)
    requires |v| == 16 && v[0] == f.valid && v[2] == f.fh && StatOf(v) == MeantStat(f)
    ensures SetattrOf(node, v) == MeantSetattr(node, f)
  {
  }

  lemma MknodDecodes(u: u64, node: u64, mode: u32, rdev: u32, umask: u32, n: Name)
    requires NulFree(n)
    ensures DecodeMknod(u, node, Packed(MKNOD_IN, [mode, rdev, umask, 0], Terminated(n))) ==
              Accept(u, ReqMknod(node, n, mode, rdev))
  {
    Fits4(MKNOD_IN, mode, rdev, umask, 0);
    PackedReads(MKNOD_IN, [mode, rdev, umask, 0], Terminated(n));
    TerminatedReads(n);
  }

  lemma MkdirDecodes(u: u64, node: u64, mode: u32, umask: u32, n: Name)
    requires NulFree(n)
    ensures DecodeMkdir(u, node, Packed(MKDIR_IN, [mode, umask], Terminated(n))) == Accept(u, ReqMkdir(node, n, mode))
  {
    Fits2(MKDIR_IN, mode, umask);
    PackedReads(MKDIR_IN, [mode, umask], Terminated(n));
    TerminatedReads(n);
  }

  lemma CreateDecodes(u: u64, node: u64, flags: u32, mode: u32, umask: u32, openFlags: u32, n: Name)
    requires NulFree(n)
    ensures DecodeCreate(u, node, Packed(CREATE_IN, [flags, mode, umask, openFlags], Terminated(n))) ==
              Accept(u, ReqCreate(node, n, mode))
  {
    Fits4(CREATE_IN, flags, mode, umask, openFlags);
    PackedReads(CREATE_IN, [flags, mode, umask, openFlags], Terminated(n));
    TerminatedReads(n);
  }

  lemma RenameDecodes(u: u64, node: u64, newdir: u64, flags: u32, n: Name, m: Name)
    requires NulFree(n) && NulFree(m)
    ensures DecodeRename(u, node, Packed(RENAME2_IN, [newdir, flags, 0], BothTerminated(n, m))) ==
              Accept(u, ReqRename(node, n, newdir, m, AsI32(flags)))
  {
    FitsRename(newdir, flags);
    PackedReads(RENAME2_IN, [newdir, flags, 0], BothTerminated(n, m));
    BothTerminatedRead(n, m);
    RenameOfFields(u, node, Packed(RENAME2_IN, [newdir, flags, 0], BothTerminated(n, m)), newdir, flags, n, m);
  }

  lemma RenameOfFields(u: u64, node: u64, body: seq<byte>, newdir: u64, flags: u32, n: Name, m: Name)
    requires ReadBody(RENAME2_IN, body) == Some([newdir, flags, 0]) && TwoNamesAfter(RENAME2_IN, body) == Some((n, m))
    ensures DecodeRename(u, node, body) == Accept(u, ReqRename(node, n, newdir, m, AsI32(flags)))
  {
  }

  lemma OpenDecodes(u: u64, node: u64, flags: u32, openFlags: u32)
    ensures DecodeOpen(u, node, Packed(OPEN_IN, [flags, openFlags], [])) == Accept(u, ReqOpen(node, AsI32(flags)))
  {
    Fits2(OPEN_IN, flags, openFlags);
    PackedReads(OPEN_IN, [flags, openFlags], []);
  }

  lemma ReleaseDecodes(u: u64, node: u64, handle: u64, a: u32, b: u32, owner: u64)
    ensures DecodeRelease(u, node, Packed(RELEASE_IN, [handle, a, b, owner], [])) ==
              Accept(u, ReqRelease(node, handle, AsI32(a)))
  {
    FitsRelease(handle, a, b, owner);
    PackedReads(RELEASE_IN, [handle, a, b, owner], []);
  }

  lemma XAttrDecodes(u: u64, node: u64, size: u32, n: Name)
    requires NulFree(n)
    ensures DecodeXAttr(true, u, node, Packed(GETXATTR_IN, [size, 0], Terminated(n))) ==
              Accept(u, if size == 0 then ReqGetXAttrSize(node, n) else ReqGetXAttr(node, n, size))
    ensures DecodeXAttr(false, u, node, Packed(GETXATTR_IN, [size, 0], [])) ==
              Accept(u, if size == 0 then ReqListXAttrSize(node) else ReqListXAttr(node, size))
  {
    Fits2(GETXATTR_IN, size, 0);
    PackedReads(GETXATTR_IN, [size, 0], Terminated(n));
    PackedReads(GETXATTR_IN, [size, 0], []);
    TerminatedReads(n);
  }

  lemma ReadDecodes(u: u64, node: u64, kind: ReadKind, handle: u64, offset: u64, size: u32, a: u32, owner: u64, b: u32)
    ensures DecodeRead(kind, u, node, ReadBytes(handle, offset, size, a, owner, b, [])) ==
              Accept(u, match kind
                        case Plain => ReqRead(node, handle, size, offset)
                        case Dir => ReqReaddir(node, size, offset)
                        case DirPlus => ReqReaddirPlus(node, size, offset))
  {
    ReadFields();
    FitsRead(handle, offset, size, a, owner, b);
    PackedReads(READ_IN, [handle, offset, size, a, owner, b, 0], []);
  }

  lemma WriteDecodes(u: u64, node: u64, handle: u64, offset: u64, a: u32, owner: u64, b: u32, data: seq<byte>)
    requires |data| < 0x1_0000_0000
    ensures DecodeWrite(u, node, ReadBytes(handle, offset, |data|, a, owner, b, data)) ==
              Accept(u, ReqWrite(node, handle, WRITE_DATA_OFFSET, |data|, offset, data))
  {
    ReadFields();
    WireStructSizes();
    FitsRead(handle, offset, |data|, a, owner, b);
    PackedReads(READ_IN, [handle, offset, |data|, a, owner, b, 0], data);
    assert data[..|data|] == data;
  }

  /** The body of this message decodes to what it means. */
  predicate Right(ops: Ops, s: Sender, k: KernelRequest)
    requires Proper(k)
  {
    DecodeOp(ops, OpcodeOf(k), s.unique, s.node, Payload(k)) == Expected(ops, s, k)
  }

  /** What the dispatch needs to know about a message that is not a forget. */
  lemma RightIf(ops: Ops, s: Sender, k: KernelRequest, enabled: bool)
    requires Proper(k) && !k.KForget? && !k.KBatchForget? && Enabled(ops, OpcodeOf(k)) == enabled
    requires DecodeOp(ops, OpcodeOf(k), s.unique, s.node, Payload(k)) == if enabled then Meant(s, k) else Reject
    ensures Right(ops, s, k)
  {
  }

  lemma BareDecodes(ops: Ops, s: Sender, k: KernelRequest)
    requires Proper(k) && (k.KGetattr? || k.KReadlink? || k.KStatfs? || k.KInterrupt? || k.KDestroy?)
    ensures Right(ops, s, k)
  {
  }

  lemma OneNameDecodes(ops: Ops, s: Sender, k: KernelRequest)
    requires Proper(k) && (k.KLookup? || k.KUnlink? || k.KRmdir?)
    ensures Right(ops, s, k)
  {
    match k {
      case KLookup(n) => TerminatedReads(n);
      case KUnlink(n) => TerminatedReads(n);
      case KRmdir(n) => TerminatedReads(n);
    }
  }

  lemma RenameDispatched(ops: Ops, u: u64, node: u64, body: seq<byte>)
    ensures DecodeOp(ops, Opcodes.Rename2, u, node, body) == if ops.rename then DecodeRename(u, node, body) else Reject
    ensures Enabled(ops, Opcodes.Rename2) == ops.rename
  {
  }

  lemma RenameMessageDecodes(ops: Ops, s: Sender, k: KernelRequest)
    requires Proper(k) && k.KRename2?
    ensures Right(ops, s, k)
  {
    var body := Packed(RENAME2_IN, [k.newdir, k.flags, 0], BothTerminated(k.name, k.newName));
    var meant := Accept(s.unique, ReqRename(s.node, k.name, k.newdir, k.newName, AsI32(k.flags)));
    assert OpcodeOf(k) == Opcodes.Rename2 && Payload(k) == body && Meant(s, k) == meant;
    RenameDecodes(s.unique, s.node, k.newdir, k.flags, k.name, k.newName);
    RenameDispatched(ops, s.unique, s.node, body);
    RightIf(ops, s, k, ops.rename);
  }

  lemma MknodMessageDecodes(ops: Ops, s: Sender, k: KernelRequest)
    requires Proper(k) && k.KMknod?
    ensures Right(ops, s, k)
  {
    var body := Packed(MKNOD_IN, [k.mode, k.rdev, k.umask, 0], Terminated(k.name));
    var meant := Accept(s.unique, ReqMknod(s.node, k.name, k.mode, k.rdev));
    assert OpcodeOf(k) == Opcodes.Mknod && Payload(k) == body && Meant(s, k) == meant;
    MknodDecodes(s.unique, s.node, k.mode, k.rdev, k.umask, k.name);
    MknodDispatched(ops, s.unique, s.node, body);
    RightIf(ops, s, k, ops.mknod);
  }

  lemma MknodDispatched(ops: Ops, u: u64, node: u64, body: seq<byte>)
    ensures DecodeOp(ops, Opcodes.Mknod, u, node, body) == if ops.mknod then DecodeMknod(u, node, body) else Reject
    ensures Enabled(ops, Opcodes.Mknod) == ops.mknod
  {
  }

  lemma MkdirMessageDecodes(ops: Ops, s: Sender, k: KernelRequest)
    requires Proper(k) && k.KMkdir?
    ensures Right(ops, s, k)
  {
    var body := Packed(MKDIR_IN, [k.mode, k.umask], Terminated(k.name));
    var meant := Accept(s.unique, ReqMkdir(s.node, k.name, k.mode));
    assert OpcodeOf(k) == Opcodes.Mkdir && Payload(k) == body && Meant(s, k) == meant;
    MkdirDecodes(s.unique, s.node, k.mode, k.umask, k.name);
    MkdirDispatched(ops, s.unique, s.node, body);
    RightIf(ops, s, k, ops.mkdir);
  }

  lemma MkdirDispatched(ops: Ops, u: u64, node: u64, body: seq<byte>)
    ensures DecodeOp(ops, Opcodes.Mkdir, u, node, body) == if ops.mkdir then DecodeMkdir(u, node, body) else Reject
    ensures Enabled(ops, Opcodes.Mkdir) == ops.mkdir
  {
  }

  lemma CreateMessageDecodes(ops: Ops, s: Sender, k: KernelRequest)
    requires Proper(k) && k.KCreate?
    ensures Right(ops, s, k)
  {
    var body := Packed(CREATE_IN, [k.flags, k.mode, k.umask, k.openFlags], Terminated(k.name));
    var meant := Accept(s.unique, ReqCreate(s.node, k.name, k.mode));
    assert OpcodeOf(k) == Opcodes.Create && Payload(k) == body && Meant(s, k) == meant;
    CreateDecodes(s.unique, s.node, k.flags, k.mode, k.umask, k.openFlags, k.name);
    CreateDispatched(ops, s.unique, s.node, body);
    RightIf(ops, s, k, ops.create);
  }

  lemma CreateDispatched(ops: Ops, u: u64, node: u64, body: seq<byte>)
    ensures DecodeOp(ops, Opcodes.Create, u, node, body) == if ops.create then DecodeCreate(u, node, body) else Reject
    ensures Enabled(ops, Opcodes.Create) == ops.create
  {
  }

  lemma GetxattrMessageDecodes(ops: Ops, s: Sender, k: KernelRequest)
    requires Proper(k) && k.KGetxattr?
    ensures Right(ops, s, k)
  {
    var body := Packed(GETXATTR_IN, [k.size, 0], Terminated(k.name));
    XAttrDecodes(s.unique, s.node, k.size, k.name);
    assert OpcodeOf(k) == Opcodes.Getxattr && Payload(k) == body;
    assert DecodeXAttr(true, s.unique, s.node, body) == Meant(s, k);
    GetxattrDispatched(ops, s.unique, s.node, body);
  }

  lemma GetxattrDispatched(ops: Ops, u: u64, node: u64, body: seq<byte>)
    ensures DecodeOp(ops, Opcodes.Getxattr, u, node, body) ==
              if ops.getxattr then DecodeXAttr(true, u, node, body) else Reject
    ensures Enabled(ops, Opcodes.Getxattr) == ops.getxattr
  {
  }

  lemma ListxattrMessageDecodes(ops: Ops, s: Sender, k: KernelRequest)
    requires Proper(k) && k.KListxattr?
    ensures Right(ops, s, k)
  {
    var body := Packed(GETXATTR_IN, [k.size, 0], []);
    XAttrDecodes(s.unique, s.node, k.size, []);
    assert OpcodeOf(k) == Opcodes.Listxattr && Payload(k) == body;
    assert DecodeXAttr(false, s.unique, s.node, body) == Meant(s, k);
    ListxattrDispatched(ops, s.unique, s.node, body);
  }

  lemma ListxattrDispatched(ops: Ops, u: u64, node: u64, body: seq<byte>)
    ensures DecodeOp(ops, Opcodes.Listxattr, u, node, body) ==
              if ops.listxattr then DecodeXAttr(false, u, node, body) else Reject
    ensures Enabled(ops, Opcodes.Listxattr) == ops.listxattr
  {
  }

  lemma WriteMessageDecodes(ops: Ops, s: Sender, k: KernelRequest)
    requires Proper(k) && k.KWrite?
    ensures Right(ops, s, k)
  {
    var body := ReadBytes(k.handle, k.offset, |k.data|, k.writeFlags, k.lockOwner, k.flags, k.data);
    var meant := Accept(s.unique, ReqWrite(s.node, k.handle, WRITE_DATA_OFFSET, |k.data|, k.offset, k.data));
    assert OpcodeOf(k) == Opcodes.Write && Payload(k) == body && Meant(s, k) == meant;
    WriteDecodes(s.unique, s.node, k.handle, k.offset, k.writeFlags, k.lockOwner, k.flags, k.data);
    WriteDispatched(ops, s.unique, s.node, body);
    RightIf(ops, s, k, ops.write);
  }

  lemma WriteDispatched(ops: Ops, u: u64, node: u64, body: seq<byte>)
    ensures DecodeOp(ops, Opcodes.Write, u, node, body) == if ops.write then DecodeWrite(u, node, body) else Reject
    ensures Enabled(ops, Opcodes.Write) == ops.write
  {
  }

  lemma ReadMeant(s: Sender, k: KernelRequest)
    requires Proper(k) && k.KRead?
    ensures DecodeRead(k.kind, s.unique, s.node, Payload(k)) == Meant(s, k) && OpcodeOf(k) == OpOfRead(k.kind)
  {
    var body := ReadBytes(k.handle, k.offset, k.size, k.readFlags, k.lockOwner, k.flags, []);
    ReadDecodes(s.unique, s.node, k.kind, k.handle, k.offset, k.size, k.readFlags, k.lockOwner, k.flags);
    assert Payload(k) == body;
  }

  lemma ReadMessageDecodes(ops: Ops, s: Sender, k: KernelRequest)
    requires Proper(k) && k.KRead?
    ensures Right(ops, s, k)
  {
    ReadMeant(s, k);
    ReadDispatched(ops, k.kind, s.unique, s.node, Payload(k));
    RightIf(ops, s, k, ReadEnabled(ops, k.kind));
  }

  function OpOfRead(kind: ReadKind): Opcodes.Opcode
  {
    match kind case Plain => Opcodes.Read case Dir => Opcodes.Readdir case DirPlus => Opcodes.Readdirplus
  }

  predicate ReadEnabled(ops: Ops, kind: ReadKind)
  {
    match kind case Plain => ops.read case Dir => ops.readdir case DirPlus => ops.readdirplus
  }

  lemma ReadDispatched(ops: Ops, kind: ReadKind, u: u64, node: u64, body: seq<byte>)
    ensures DecodeOp(ops, OpOfRead(kind), u, node, body) ==
              if ReadEnabled(ops, kind) then DecodeRead(kind, u, node, body) else Reject
    ensures Enabled(ops, OpOfRead(kind)) == ReadEnabled(ops, kind)
  {
  }

  lemma OpenMessageDecodes(ops: Ops, s: Sender, k: KernelRequest)
    requires Proper(k) && k.KOpen?
    ensures Right(ops, s, k)
  {
    assert OpcodeOf(k) == Opcodes.Open && Payload(k) == Packed(OPEN_IN, [k.flags, k.openFlags], []);
    OpenDecodes(s.unique, s.node, k.flags, k.openFlags);
  }

  lemma ReleaseMessageDecodes(ops: Ops, s: Sender, k: KernelRequest)
    requires Proper(k) && k.KRelease?
    ensures Right(ops, s, k)
  {
    assert OpcodeOf(k) == Opcodes.Release;
    assert Payload(k) == Packed(RELEASE_IN, [k.handle, k.flags, k.releaseFlags, k.lockOwner], []);
    ReleaseDecodes(s.unique, s.node, k.handle, k.flags, k.releaseFlags, k.lockOwner);
  }

  lemma ForgetMessageDecodes(ops: Ops, s: Sender, k: KernelRequest)
    requires Proper(k) && k.KForget?
    ensures Right(ops, s, k)
  {
    assert OpcodeOf(k) == Opcodes.Forget && Payload(k) == Packed(FORGET_IN, [k.nlookup], []);
    ForgetDecodes(ops, s.unique, s.node, k.nlookup);
  }

  lemma BatchMessageDecodes(ops: Ops, s: Sender, k: KernelRequest)
    requires Proper(k) && k.KBatchForget?
    ensures Right(ops, s, k)
  {
    assert OpcodeOf(k) == Opcodes.BatchForget;
    assert Payload(k) == Packed(BATCH_FORGET_IN, [|k.items|, 0], Items(k.items));
    if ops.forget { BatchForgetDecodes(ops, k.items); }
  }

  lemma SetattrMessageDecodes(ops: Ops, s: Sender, k: KernelRequest)
    requires Proper(k) && k.KSetattr?
    ensures Right(ops, s, k)
  {
    assert OpcodeOf(k) == Opcodes.Setattr && Payload(k) == SetattrBytes(k.fields);
    SetattrDecodes(s.unique, s.node, k.fields);
    SetattrDispatched(ops, s.unique, s.node, SetattrBytes(k.fields));
    RightIf(ops, s, k, ops.setattr);
  }

  lemma SetattrDispatched(ops: Ops, u: u64, node: u64, body: seq<byte>)
    ensures DecodeOp(ops, Opcodes.Setattr, u, node, body) ==
              if ops.setattr then DecodeSetattr(u, node, body) else Reject
    ensures Enabled(ops, Opcodes.Setattr) == ops.setattr
  {
  }

  lemma PayloadDecodes(ops: Ops, s: Sender, k: KernelRequest)
    requires Proper(k)
    ensures Right(ops, s, k)
  {
    if MovesData(k) {
      TransferDecodes(ops, s, k);
    } else {
      OtherDecodes(ops, s, k);
    }
  }

  /** Reads, writes and attribute lists: what asks for or brings data. */
  predicate MovesData(k: KernelRequest)
  {
    k.KRead? || k.KWrite? || k.KGetxattr? || k.KListxattr? || k.KOpen? || k.KRelease?
  }

  lemma TransferDecodes(ops: Ops, s: Sender, k: KernelRequest)
    requires Proper(k) && MovesData(k)
    ensures Right(ops, s, k)
  {
    match k {
      case KOpen(_, _) => OpenMessageDecodes(ops, s, k);
      case KRelease(_, _, _, _) => ReleaseMessageDecodes(ops, s, k);
      case KRead(_, _, _, _, _, _, _) => ReadMessageDecodes(ops, s, k);
      case KWrite(_, _, _, _, _, _) => WriteMessageDecodes(ops, s, k);
      case KGetxattr(_, _) => GetxattrMessageDecodes(ops, s, k);
      case KListxattr(_) => ListxattrMessageDecodes(ops, s, k);
    }
  }

  lemma OtherDecodes(ops: Ops, s: Sender, k: KernelRequest)
    requires Proper(k) && !MovesData(k)
    ensures Right(ops, s, k)
  {
    match k {
      case KLookup(_) => OneNameDecodes(ops, s, k);
      case KUnlink(_) => OneNameDecodes(ops, s, k);
      case KRmdir(_) => OneNameDecodes(ops, s, k);
      case KForget(_) => ForgetMessageDecodes(ops, s, k);
      case KBatchForget(_) => BatchMessageDecodes(ops, s, k);
      case KSetattr(_) => SetattrMessageDecodes(ops, s, k);
      case KMknod(_, _, _, _) => MknodMessageDecodes(ops, s, k);
      case KMkdir(_, _, _) => MkdirMessageDecodes(ops, s, k);
      case KCreate(_, _, _, _, _) => CreateMessageDecodes(ops, s, k);
      case KRename2(_, _, _, _) => RenameMessageDecodes(ops, s, k);
      case _ => BareDecodes(ops, s, k);
    }
  }

  lemma FrameDecodes(s: Sender, op: u32, payload: seq<byte>)
    requires IN_HEADER_SIZE + |payload| < 0x1_0000_0000
    ensures ReadHeader(Framed(s, op, payload)) == Some(Header(op, s.unique, s.node))
    ensures Framed(s, op, payload)[IN_HEADER_SIZE..] == payload
  {
    HeaderShape();
    FitsHeader(IN_HEADER_SIZE + |payload|, op, s);
    PackedReads(IN_HEADER, HeaderFields(s, IN_HEADER_SIZE + |payload|, op), payload);
  }

  /** A framed body is decoded by its opcode, whatever it holds. */
  lemma FramedDecodes(ops: Ops, s: Sender, op: Opcodes.Opcode, payload: seq<byte>)
    requires IN_HEADER_SIZE + |payload| < 0x1_0000_0000
    ensures Decode(ops, Framed(s, Opcodes.ToU32(op), payload)) == DecodeOp(ops, op, s.unique, s.node, payload)
  {
    FrameDecodes(s, Opcodes.ToU32(op), payload);
    NumberDispatched(ops, op, s.unique, s.node, payload);
  }

  lemma NumberDispatched(ops: Ops, op: Opcodes.Opcode, u: u64, node: u64, body: seq<byte>)
    ensures DecodeBody(ops, Header(Opcodes.ToU32(op), u, node), body) == DecodeOp(ops, op, u, node, body)
  {
    Opcodes.OpcodeNumbers(op, Opcodes.ToU32(op));
  }

  /** Every message the kernel can send decodes to exactly the request it means. */
  lemma MessageDecodes(ops: Ops, s: Sender, k: KernelRequest)
    requires Proper(k) && IN_HEADER_SIZE + |Payload(k)| < 0x1_0000_0000
    ensures Decode(ops, Message(s, k)) == Expected(ops, s, k)
  {
    FramedDecodes(ops, s, OpcodeOf(k), Payload(k));
    PayloadDecodes(ops, s, k);
  }
}
