/** Requests, and decoding them from the messages of the kernel (src/session.rs, `process_request`). */
module Messages {
  import opened Bytes
  import opened Protocol
  import opened Opcodes

  /** The `EnabledOps` flags. */
  datatype Ops = Ops(lookup: bool, forget: bool, getattr: bool, setattr: bool, statfs: bool, readdir: bool,
                     readdirplus: bool, mkdir: bool, create: bool, mknod: bool, open: bool, release: bool,
                     read: bool, write: bool, unlink: bool, rmdir: bool, rename: bool, readlink: bool,
                     listxattr: bool, getxattr: bool)

  /** The time and size fields of a setattr message, as `to_stat` keeps them. */
  datatype SetStat = SetStat(mode: u32, uid: u32, gid: u32, size: int, atime: int, atimeNsec: int,
                             mtime: int, mtimeNsec: int, ctime: int, ctimeNsec: int)

  /** What a request asks for: the variants of `Request` without their guards. `ReqWrite` names the part
      of the read buffer its data is in; `data` is filled in when the buffer's contents are meant too. */
  datatype Body =
    | ReqLookup(parent: u64, name: Name)
    | ReqForget(inode: u64, count: u64)
    | ReqGetattr(inode: u64)
    | ReqSetattr(inode: u64, fh: Option<u64>, toSet: bv32, stat: SetStat)
    | ReqStatfs(inode: u64)
    | ReqReaddir(inode: u64, size: nat, offset: u64)
    | ReqReaddirPlus(inode: u64, size: nat, offset: u64)
    | ReqMkdir(parent: u64, name: Name, mode: u32)
    | ReqCreate(parent: u64, name: Name, mode: u32)
    | ReqMknod(parent: u64, name: Name, mode: u32, dev: u64)
    | ReqOpen(inode: u64, flags: int)
    | ReqRelease(inode: u64, handle: u64, flags: int)
    | ReqRead(inode: u64, handle: u64, size: nat, offset: u64)
    | ReqUnlink(parent: u64, name: Name)
    | ReqRmdir(parent: u64, name: Name)
    | ReqWrite(inode: u64, handle: u64, dataOffset: nat, size: nat, offset: u64, data: seq<byte>)
    | ReqReadlink(inode: u64)
    | ReqRename(parent: u64, name: Name, newParent: u64, newName: Name, flags: int)
    | ReqListXAttrSize(inode: u64)
    | ReqListXAttr(inode: u64, size: nat)
    | ReqGetXAttrSize(inode: u64, name: Name)
    | ReqGetXAttr(inode: u64, name: Name, size: nat)

  /** A request as the client gets it: the id its guard answers, and what it asks for. */
  datatype Request = Request(unique: u64, body: Body)

  /** What a message leads to. `rejected`: its guard is dropped armed, which answers ENOSYS;
      `finish`: the stream ends; `failed`: `process_request` returns an error. */
  datatype Decoded = Decoded(requests: seq<Request>, rejected: bool, finish: bool, failed: bool)

  function Accept(unique: u64, body: Body): Decoded { Decoded([Request(unique, body)], false, false, false) }

  const Reject := Decoded([], true, false, false)
  const Malformed := Decoded([], true, false, true)
  const Broken := Decoded([], false, false, true)
  const Nothing := Decoded([], false, false, false)
  const Finish := Decoded([], false, true, false)

  // ----- reading structs

  /** `read_body`: None stands for the "truncated" error. */
  function ReadBody(l: Layout, body: seq<byte>): (r: Option<seq<nat>>)
    ensures r.Some? <==> |body| >= SizeOf(l)
    ensures r.Some? ==> |r.value| == Fields(l) && Representable(l, r.value)
  {
    if |body| < SizeOf(l) then None
    else
      UnpackRepresentable(l, body);
      Some(Unpack(l, body))
  }

  /** `as c_int` */
  function AsI32(x: u32): int { if x < 0x8000_0000 then x else x - 0x1_0000_0000 }

  /** `as i64` */
  function AsI64(x: u64): int { if x < 0x8000_0000_0000_0000 then x else x - 0x1_0000_0000_0000_0000 }

  const IN_HEADER_SIZE := 40
  const WRITE_DATA_OFFSET := 80

  // FATTR bits and the mask `from_bits_truncate` keeps
  const FATTR_MODE: bv32 := 1
  const FATTR_UID: bv32 := 2
  const FATTR_GID: bv32 := 4
  const FATTR_SIZE: bv32 := 8
  const FATTR_ATIME: bv32 := 16
  const FATTR_MTIME: bv32 := 32
  const FATTR_FH: bv32 := 64
  const FATTR_ATIME_NOW: bv32 := 128
  const FATTR_MTIME_NOW: bv32 := 256
  const FATTR_CTIME: bv32 := 1024
  const FATTR_ALL: bv32 := 0x5FF

  function Has(flags: bv32, bit: bv32): bool { flags & bit == bit }

  // ----- one opcode each: `h` is the header, `body` what follows it

  function DecodeForget(ops: Ops, unique: u64, node: u64, body: seq<byte>): Decoded
  {
    match ReadBody(FORGET_IN, body)
    case None => Malformed
    case Some(f) => if ops.forget then Accept(unique, ReqForget(node, Wrap64(f[0]))) else Nothing
  }

  /** The complete records of a batch, at most `count` of them. The guards of these requests are made
      with id 0, so they never answer. */
  function BatchRecords(count: nat, records: seq<byte>): seq<Request>
    decreases count
  {
    if count == 0 || |records| < 16 then []
    else
      OneRecordSize();
      var one := Unpack(FORGET_ONE, records);
      [Request(0, ReqForget(Wrap64(one[0]), Wrap64(one[1])))] + BatchRecords(count - 1, records[16..])
  }

  lemma OneRecordSize()
    ensures SizeOf(FORGET_ONE) == 16 && Fields(FORGET_ONE) == 2
  {
  }

  function DecodeBatchForget(ops: Ops, body: seq<byte>): Decoded
  {
    if !ops.forget then Nothing
    else match ReadBody(BATCH_FORGET_IN, body)
      case None => Broken
      case Some(b) => Decoded(BatchRecords(b[0], body[8..]), false, false, false)
  }

  function DecodeSetattr(unique: u64, node: u64, body: seq<byte>): Decoded
  {
    match ReadBody(SETATTR_IN, body)
    case None => Malformed
    case Some(s) =>
      SetattrFields();
      Accept(unique, SetattrOf(node, s))
  }

  /** The request made of the fields of a `fuse_setattr_in`. */
  function SetattrOf(node: u64, s: seq<nat>): Body
    requires |s| == 16
  {
    var valid := Wrap32(s[0]) as bv32 & FATTR_ALL;
    ReqSetattr(node, if Has(valid, FATTR_FH) then Some(Wrap64(s[2])) else None, valid, StatOf(s))
  }

  /** `FuseSetattrIn::to_stat` */
  function StatOf(s: seq<nat>): SetStat
    requires |s| == 16
  {
    SetStat(Wrap32(s[11]), Wrap32(s[13]), Wrap32(s[14]), AsI64(Wrap64(s[3])),
            AsI64(Wrap64(s[5])), Wrap32(s[8]), AsI64(Wrap64(s[6])), Wrap32(s[9]), AsI64(Wrap64(s[7])), Wrap32(s[10]))
  }

  lemma SetattrFields()
    ensures Fields(SETATTR_IN) == 16
  {
    var words := U32(U32(U32(U32(U32(U32(U32(U32(End))))))));
    assert Fields(words) == 8;
    assert Fields(U64(U64(U64(U64(U64(U64(words))))))) == 14;
  }

  function DecodeMknod(unique: u64, node: u64, body: seq<byte>): Decoded
  {
    match ReadBody(MKNOD_IN, body)
    case None => Malformed
    case Some(m) => Accept(unique, ReqMknod(node, NameAfter(MKNOD_IN, body).value, Wrap32(m[0]), Wrap32(m[1])))
  }

  function DecodeMkdir(unique: u64, node: u64, body: seq<byte>): Decoded
  {
    match ReadBody(MKDIR_IN, body)
    case None => Malformed
    case Some(m) => Accept(unique, ReqMkdir(node, NameAfter(MKDIR_IN, body).value, Wrap32(m[0])))
  }

  function DecodeCreate(unique: u64, node: u64, body: seq<byte>): Decoded
  {
    match ReadBody(CREATE_IN, body)
    case None => Malformed
    case Some(c) => Accept(unique, ReqCreate(node, NameAfter(CREATE_IN, body).value, Wrap32(c[1])))
  }

  function DecodeRename(unique: u64, node: u64, body: seq<byte>): Decoded
  {
    match ReadBody(RENAME2_IN, body)
    case None => Malformed
    case Some(r) =>
      match TwoNamesAfter(RENAME2_IN, body)
      case None => Malformed
      case Some(names) => Accept(unique, ReqRename(node, names.0, Wrap64(r[0]), names.1, AsI32(Wrap32(r[1]))))
  }

  function DecodeOpen(unique: u64, node: u64, body: seq<byte>): Decoded
  {
    match ReadBody(OPEN_IN, body)
    case None => Malformed
    case Some(o) => Accept(unique, ReqOpen(node, AsI32(Wrap32(o[0]))))
  }

  function DecodeRelease(unique: u64, node: u64, body: seq<byte>): Decoded
  {
    match ReadBody(RELEASE_IN, body)
    case None => Malformed
    case Some(r) => Accept(unique, ReqRelease(node, Wrap64(r[0]), AsI32(Wrap32(r[1]))))
  }

  datatype ReadKind = Plain | Dir | DirPlus

  function DecodeRead(kind: ReadKind, unique: u64, node: u64, body: seq<byte>): Decoded
  {
    match ReadBody(READ_IN, body)
    case None => Malformed
    case Some(r) =>
      ReadFields();
      var handle, offset, size := Wrap64(r[0]), Wrap64(r[1]), Wrap32(r[2]);
      Accept(unique, match kind
                     case Plain => ReqRead(node, handle, size, offset)
                     case Dir => ReqReaddir(node, size, offset)
                     case DirPlus => ReqReaddirPlus(node, size, offset))
  }

  lemma ReadFields()
    ensures Fields(READ_IN) == 7 && Fields(WRITE_IN) == 7
  {
  }

  /** The data must lie within the message. */
  function DecodeWrite(unique: u64, node: u64, body: seq<byte>): Decoded
  {
    match ReadBody(WRITE_IN, body)
    case None => Malformed
    case Some(w) =>
      ReadFields();
      var size := Wrap32(w[2]);
      if WRITE_DATA_OFFSET + size > IN_HEADER_SIZE + |body| then Malformed
      else Accept(unique, ReqWrite(node, Wrap64(w[0]), WRITE_DATA_OFFSET, size, Wrap64(w[1]),
                                   body[WRITE_DATA_OFFSET - IN_HEADER_SIZE..][..size]))
  }

  function DecodeXAttr(named: bool, unique: u64, node: u64, body: seq<byte>): Decoded
  {
    match ReadBody(GETXATTR_IN, body)
    case None => Malformed
    case Some(g) =>
      var size := Wrap32(g[0]);
      if named then
        var name := NameAfter(GETXATTR_IN, body).value;
        Accept(unique, if size == 0 then ReqGetXAttrSize(node, name) else ReqGetXAttr(node, name, size))
      else Accept(unique, if size == 0 then ReqListXAttrSize(node) else ReqListXAttr(node, size))
  }

  predicate Enabled(ops: Ops, op: Opcode)
  {
    match op
    case Lookup => ops.lookup
    case Forget => ops.forget
    case BatchForget => ops.forget
    case Getattr => ops.getattr
    case Setattr => ops.setattr
    case Readlink => ops.readlink
    case Mknod => ops.mknod
    case Mkdir => ops.mkdir
    case Unlink => ops.unlink
    case Rmdir => ops.rmdir
    case Rename2 => ops.rename
    case Open => ops.open
    case Read => ops.read
    case Readdir => ops.readdir
    case Readdirplus => ops.readdirplus
    case Write => ops.write
    case Statfs => ops.statfs
    case Release => ops.release
    case Getxattr => ops.getxattr
    case Listxattr => ops.listxattr
    case Create => ops.create
    case Interrupt => true
    case Destroy => true
    case Init => false
  }

  /** The body of `process_request` once the header is read and the guard made. */
  function DecodeOp(ops: Ops, op: Opcode, unique: u64, node: u64, body: seq<byte>): Decoded
  {
    match op
    case Destroy => Finish
    case Interrupt => Reject
    case Forget => DecodeForget(ops, unique, node, body)
    case BatchForget => DecodeBatchForget(ops, body)
    case Lookup => if ops.lookup then Accept(unique, ReqLookup(node, NameFromBytes(body))) else Reject
    case Getattr => if ops.getattr then Accept(unique, ReqGetattr(node)) else Reject
    case Setattr => if ops.setattr then DecodeSetattr(unique, node, body) else Reject
    case Statfs => if ops.statfs then Accept(unique, ReqStatfs(node)) else Reject
    case Readlink => if ops.readlink then Accept(unique, ReqReadlink(node)) else Reject
    case Mknod => if ops.mknod then DecodeMknod(unique, node, body) else Reject
    case Mkdir => if ops.mkdir then DecodeMkdir(unique, node, body) else Reject
    case Unlink => if ops.unlink then Accept(unique, ReqUnlink(node, NameFromBytes(body))) else Reject
    case Rmdir => if ops.rmdir then Accept(unique, ReqRmdir(node, NameFromBytes(body))) else Reject
    case Rename2 => if ops.rename then DecodeRename(unique, node, body) else Reject
    case Open => if ops.open then DecodeOpen(unique, node, body) else Reject
    case Release => if ops.release then DecodeRelease(unique, node, body) else Reject
    case Read => if ops.read then DecodeRead(Plain, unique, node, body) else Reject
    case Write => if ops.write then DecodeWrite(unique, node, body) else Reject
    case Create => if ops.create then DecodeCreate(unique, node, body) else Reject
    case Readdir => if ops.readdir then DecodeRead(Dir, unique, node, body) else Reject
    case Readdirplus => if ops.readdirplus then DecodeRead(DirPlus, unique, node, body) else Reject
    case Listxattr => if ops.listxattr then DecodeXAttr(false, unique, node, body) else Reject
    case Getxattr => if ops.getxattr then DecodeXAttr(true, unique, node, body) else Reject
    case Init => Reject
  }

  /** The header fields `process_request` uses. None: too short, or the length does not match. */
  datatype Header = Header(opcode: nat, unique: u64, node: u64)

  function ReadHeader(msg: seq<byte>): (r: Option<Header>)
    ensures r.Some? ==> |msg| >= IN_HEADER_SIZE
  {
    HeaderShape();
    match ReadBody(IN_HEADER, msg)
    case None => None
    case Some(h) => if h[0] != |msg| then None else Some(Header(h[1], Wrap64(h[2]), Wrap64(h[3])))
  }

  lemma HeaderShape()
    ensures SizeOf(IN_HEADER) == 40 && Fields(IN_HEADER) == 9
  {
  }

  /** What a message read after initialisation leads to. */
  function Decode(ops: Ops, msg: seq<byte>): Decoded
  {
    match ReadHeader(msg)
    case None => Broken
    case Some(h) => DecodeBody(ops, h, msg[IN_HEADER_SIZE..])
  }

  /** An unknown opcode is left to the guard. */
  function DecodeBody(ops: Ops, h: Header, body: seq<byte>): Decoded
  {
    match FromU32(h.opcode)
    case None => Reject
    case Some(op) => DecodeOp(ops, op, h.unique, h.node, body)
  }

  /** Names in requests never contain a NUL, so they can always be shown in listings. */
  predicate NamesNulFree(b: Body)
  {
    match b
    case ReqLookup(_, n) => NulFree(n)
    case ReqMkdir(_, n, _) => NulFree(n)
    case ReqCreate(_, n, _) => NulFree(n)
    case ReqMknod(_, n, _, _) => NulFree(n)
    case ReqUnlink(_, n) => NulFree(n)
    case ReqRmdir(_, n) => NulFree(n)
    case ReqRename(_, n, _, m, _) => NulFree(n) && NulFree(m)
    case ReqGetXAttrSize(_, n) => NulFree(n)
    case ReqGetXAttr(_, n, _) => NulFree(n)
    case _ => true
  }

  /** The name a request wants an entry made under. */
  function NewName(b: Body): Option<Name>
  {
    match b
    case ReqMkdir(_, name, _) => Some(name)
    case ReqCreate(_, name, _) => Some(name)
    case ReqMknod(_, name, _, _) => Some(name)
    case _ => None
  }

  /** It is no longer than this. */
  predicate NewNameWithin(b: Body, n: nat)
  {
    NewName(b).Some? ==> |NewName(b).value| <= n
  }
}
