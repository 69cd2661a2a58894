/** Decoding a second time, by the offsets of the bytes: which messages are an error, which end the stream,
    and what the others ask for. */
module MessageBytes {
  import opened Bytes
  import opened Protocol
  import opened Messages
  import opened DecodeFacts
  import Opcodes

  /** A name runs to the first NUL, or to the end. */
  function NameAt(s: seq<byte>, at: nat): Name
    requires at <= |s|
  {
    NameFromBytes(s[at..])
  }

  // ----- the header

  /** The length field is that of the message, and the fields behind it are where they are. */
  lemma HeaderExactly(msg: seq<byte>)
    ensures ReadHeader(msg).Some? <==> |msg| >= 40 && Int32(msg, 0) == |msg|
    ensures ReadHeader(msg).Some? ==> ReadHeader(msg).value == Header(Int32(msg, 4), Int64(msg, 8), Int64(msg, 16))
  {
    HeaderShape();
    if |msg| >= 40 {
      var f := Unpack(IN_HEADER, msg);
      assert msg[0..] == msg && f[0..] == f;
      PairAt(f, 0, IN_HEADER, msg, 0);
      PairAt(f, 2, IN_HEADER.rest.rest, msg, 8);
    }
  }

  // ----- the bodies

  /** The body has all its struct says, and for RENAME2 the NUL between the names. */
  predicate Complete(op: Opcodes.Opcode, body: seq<byte>)
  {
    match op
    case Forget => |body| >= 8
    case Setattr => |body| >= 88
    case Mknod => |body| >= 16
    case Mkdir => |body| >= 8
    case Rename2 => |body| >= 16 && exists i :: 16 <= i < |body| && body[i] == 0
    case Open => |body| >= 8
    case Read => |body| >= 40
    case Write => |body| >= 40 && 40 + Int32(body, 16) <= |body|
    case Release => |body| >= 24
    case Getxattr => |body| >= 8
    case Listxattr => |body| >= 8
    case Readdir => |body| >= 40
    case Create => |body| >= 16
    case Readdirplus => |body| >= 40
    case BatchForget => |body| >= 8
    case _ => true
  }

  /** The opcodes that make a request of their body. */
  predicate Asks(op: Opcodes.Opcode)
  {
    op !in {Opcodes.Init, Opcodes.Interrupt, Opcodes.Destroy, Opcodes.BatchForget}
  }

  /** Where the second of two names starts. */
  function SecondName(body: seq<byte>, at: nat): (r: nat)
    requires at <= |body| && exists i :: at <= i < |body| && body[i] == 0
    ensures r <= |body|
  {
    at + |NameAt(body, at)| + 1
  }

  /** What a complete body asks for, field by field. */
  function Wanted(op: Opcodes.Opcode, node: u64, body: seq<byte>): Body
    requires Asks(op) && Complete(op, body)
  {
    match op
    case Lookup => ReqLookup(node, NameAt(body, 0))
    case Unlink => ReqUnlink(node, NameAt(body, 0))
    case Rmdir => ReqRmdir(node, NameAt(body, 0))
    case Getattr => ReqGetattr(node)
    case Readlink => ReqReadlink(node)
    case Statfs => ReqStatfs(node)
    case Forget => ReqForget(node, Int64(body, 0))
    case Setattr => WantedSetattr(node, body)
    case Mknod => ReqMknod(node, NameAt(body, 16), Int32(body, 0), Int32(body, 4))
    case Mkdir => ReqMkdir(node, NameAt(body, 8), Int32(body, 0))
    case Create => ReqCreate(node, NameAt(body, 16), Int32(body, 4))
    case Rename2 =>
      ReqRename(node, NameAt(body, 16), Int64(body, 0), NameAt(body, SecondName(body, 16)), AsI32(Int32(body, 8)))
    case Open => ReqOpen(node, AsI32(Int32(body, 0)))
    case Release => ReqRelease(node, Int64(body, 0), AsI32(Int32(body, 8)))
    case Read => WantedRead(Plain, node, body)
    case Readdir => WantedRead(Messages.Dir, node, body)
    case Readdirplus => WantedRead(DirPlus, node, body)
    case Write =>
      ReqWrite(node, Int64(body, 0), 80, Int32(body, 16), Int64(body, 8), body[40..40 + Int32(body, 16)])
    case Getxattr => WantedXAttr(true, node, body)
    case Listxattr => WantedXAttr(false, node, body)
  }

  function WantedRead(kind: ReadKind, node: u64, body: seq<byte>): Body
    requires |body| >= 40
  {
    match kind
    case Plain => ReqRead(node, Int64(body, 0), Int32(body, 16), Int64(body, 8))
    case Dir => ReqReaddir(node, Int32(body, 16), Int64(body, 8))
    case DirPlus => ReqReaddirPlus(node, Int32(body, 16), Int64(body, 8))
  }

  /** With size zero only the size is asked for. */
  function WantedXAttr(named: bool, node: u64, body: seq<byte>): Body
    requires |body| >= 8
  {
    var size := Int32(body, 0);
    if named then
      if size == 0 then ReqGetXAttrSize(node, NameAt(body, 8)) else ReqGetXAttr(node, NameAt(body, 8), size)
    else if size == 0 then ReqListXAttrSize(node) else ReqListXAttr(node, size)
  }

  function WantedSetattr(node: u64, body: seq<byte>): Body
    requires |body| >= 88
  {
    var valid := Int32(body, 0) as bv32;
    ReqSetattr(node, if valid & 0x40 == 0x40 then Some(Int64(body, 8)) else None, valid & 0x5FF,
               SetStat(Int32(body, 68), Int32(body, 76), Int32(body, 80), AsI64(Int64(body, 16)),
                       AsI64(Int64(body, 32)), Int32(body, 56), AsI64(Int64(body, 40)), Int32(body, 60),
                       AsI64(Int64(body, 48)), Int32(body, 64)))
  }

  lemma ForgetIs(ops: Ops, u: u64, node: u64, body: seq<byte>)
    ensures DecodeForget(ops, u, node, body) ==
              if |body| < 8 then Malformed
              else if ops.forget then Accept(u, ReqForget(node, Int64(body, 0))) else Nothing
  {
    assert SizeOf(FORGET_IN) == 8;
    if |body| >= 8 {
      assert body[0..] == body;
      FieldsAt(FORGET_IN, body, 0);
    }
  }

  lemma MknodIs(u: u64, node: u64, body: seq<byte>)
    ensures DecodeMknod(u, node, body) ==
              if |body| < 16 then Malformed
              else Accept(u, ReqMknod(node, NameAt(body, 16), Int32(body, 0), Int32(body, 4)))
  {
    if |body| >= 16 { StructAt(MKNOD_IN, body); }
  }

  lemma MkdirIs(u: u64, node: u64, body: seq<byte>)
    ensures DecodeMkdir(u, node, body) ==
              if |body| < 8 then Malformed else Accept(u, ReqMkdir(node, NameAt(body, 8), Int32(body, 0)))
  {
    if |body| >= 8 { StructAt(MKDIR_IN, body); }
  }

  lemma CreateIs(u: u64, node: u64, body: seq<byte>)
    ensures DecodeCreate(u, node, body) ==
              if |body| < 16 then Malformed else Accept(u, ReqCreate(node, NameAt(body, 16), Int32(body, 4)))
  {
    if |body| >= 16 { StructAt(CREATE_IN, body); }
  }

  lemma RenameIs(u: u64, node: u64, body: seq<byte>)
    ensures DecodeRename(u, node, body) ==
              if Complete(Opcodes.Rename2, body) then Accept(u, Wanted(Opcodes.Rename2, node, body)) else Malformed
  {
    assert SizeOf(RENAME2_IN) == 16;
    TwoNamesNeedSeparator(RENAME2_IN, body);
    if Complete(Opcodes.Rename2, body) {
      StructAt(RENAME2_IN, body);
      NamesAre(body);
    }
  }

  lemma NamesAre(body: seq<byte>)
    requires Complete(Opcodes.Rename2, body) && SizeOf(RENAME2_IN) == 16
    ensures TwoNamesAfter(RENAME2_IN, body) == Some((NameAt(body, 16), NameAt(body, SecondName(body, 16))))
  {
    TwoNamesNeedSeparator(RENAME2_IN, body);
    var rest := body[16..];
    var n := NulPos(rest);
    assert rest[n + 1..] == body[16 + n + 1..];
  }

  lemma OpenIs(u: u64, node: u64, body: seq<byte>)
    ensures DecodeOpen(u, node, body) ==
              if |body| < 8 then Malformed else Accept(u, ReqOpen(node, AsI32(Int32(body, 0))))
  {
    if |body| >= 8 { StructAt(OPEN_IN, body); }
  }

  lemma ReleaseIs(u: u64, node: u64, body: seq<byte>)
    ensures DecodeRelease(u, node, body) ==
              if |body| < 24 then Malformed else Accept(u, ReqRelease(node, Int64(body, 0), AsI32(Int32(body, 8))))
  {
    if |body| >= 24 { StructAt(RELEASE_IN, body); }
  }

  /** The first three fields of reads and writes. */
  lemma ReadFieldsAt(body: seq<byte>)
    ensures SizeOf(READ_IN) == SizeOf(WRITE_IN) == 40 && READ_IN == WRITE_IN
    ensures |body| >= 40 ==>
              var f := Unpack(READ_IN, body);
              |f| == 7 && f[0] == Int64(body, 0) && f[1] == Int64(body, 8) && f[2] == Int32(body, 16)
  {
    ReadFields();
    WireStructSizes();
    if |body| >= 40 {
      StructAt(READ_IN, body);
      PairAt(Unpack(READ_IN, body), 2, READ_IN.rest.rest, body, 16);
    }
  }

  lemma ReadIs(kind: ReadKind, u: u64, node: u64, body: seq<byte>)
    ensures DecodeRead(kind, u, node, body) ==
              if |body| < 40 then Malformed else Accept(u, WantedRead(kind, node, body))
  {
    ReadFieldsAt(body);
  }

  lemma WriteIs(u: u64, node: u64, body: seq<byte>)
    ensures DecodeWrite(u, node, body) ==
              if Complete(Opcodes.Write, body) then Accept(u, Wanted(Opcodes.Write, node, body)) else Malformed
  {
    ReadFieldsAt(body);
    if Complete(Opcodes.Write, body) { assert body[40..][..Int32(body, 16)] == body[40..40 + Int32(body, 16)]; }
  }

  lemma XAttrIs(named: bool, u: u64, node: u64, body: seq<byte>)
    ensures DecodeXAttr(named, u, node, body) ==
              if |body| < 8 then Malformed else Accept(u, WantedXAttr(named, node, body))
  {
    if |body| >= 8 { StructAt(GETXATTR_IN, body); }
  }

  lemma TwoWords(rest: Layout, s: seq<byte>, at: nat)
    requires at + SizeOf(U32(U32(rest))) <= |s|
    ensures at + 8 + SizeOf(rest) <= |s|
    ensures Unpack(U32(U32(rest)), s[at..]) == [Int32(s, at), Int32(s, at + 4)] + Unpack(rest, s[at + 8..])
  {
    FieldsAt(U32(U32(rest)), s, at);
    FieldsAt(U32(rest), s, at + 4);
  }

  lemma TwoLongs(rest: Layout, s: seq<byte>, at: nat)
    requires at + SizeOf(U64(U64(rest))) <= |s|
    ensures at + 16 + SizeOf(rest) <= |s|
    ensures Unpack(U64(U64(rest)), s[at..]) == [Int64(s, at), Int64(s, at + 8)] + Unpack(rest, s[at + 16..])
  {
    FieldsAt(U64(U64(rest)), s, at);
    FieldsAt(U64(rest), s, at + 8);
  }

  lemma PairsJoin(a: nat, b: nat, c: nat, d: nat, rest: seq<nat>)
    ensures [a, b] + ([c, d] + rest) == [a, b, c, d] + rest
  {
  }

  lemma FourWords(rest: Layout, s: seq<byte>, at: nat)
    requires at + SizeOf(U32(U32(U32(U32(rest))))) <= |s|
    ensures at + 16 + SizeOf(rest) <= |s|
    ensures Unpack(U32(U32(U32(U32(rest)))), s[at..]) ==
              [Int32(s, at), Int32(s, at + 4), Int32(s, at + 8), Int32(s, at + 12)] + Unpack(rest, s[at + 16..])
  {
    TwoWords(U32(U32(rest)), s, at);
    TwoWords(rest, s, at + 8);
    PairsJoin(Int32(s, at), Int32(s, at + 4), Int32(s, at + 8), Int32(s, at + 12), Unpack(rest, s[at + 16..]));
  }

  lemma FourLongs(rest: Layout, s: seq<byte>, at: nat)
    requires at + SizeOf(U64(U64(U64(U64(rest))))) <= |s|
    ensures at + 32 + SizeOf(rest) <= |s|
    ensures Unpack(U64(U64(U64(U64(rest)))), s[at..]) ==
              [Int64(s, at), Int64(s, at + 8), Int64(s, at + 16), Int64(s, at + 24)] + Unpack(rest, s[at + 32..])
  {
    TwoLongs(U64(U64(rest)), s, at);
    TwoLongs(rest, s, at + 16);
    PairsJoin(Int64(s, at), Int64(s, at + 8), Int64(s, at + 16), Int64(s, at + 24), Unpack(rest, s[at + 32..]));
  }

  /** Flags, handle and size, and what is behind them. */
  lemma WordsThenLongs(rest: Layout, s: seq<byte>, at: nat)
    requires at + SizeOf(U32(U32(U64(U64(rest))))) <= |s|
    ensures at + 24 + SizeOf(rest) <= |s|
    ensures Unpack(U32(U32(U64(U64(rest)))), s[at..]) ==
              [Int32(s, at), Int32(s, at + 4)] + ([Int64(s, at + 8), Int64(s, at + 16)] + Unpack(rest, s[at + 24..]))
  {
    TwoWords(U64(U64(rest)), s, at);
    TwoLongs(rest, s, at + 8);
  }

  lemma SetattrWords(body: seq<byte>)
    requires |body| >= 88 && SizeOf(U32(U32(U32(U32(U32(U32(U32(U32(End))))))))) == 32
    ensures Unpack(U32(U32(U32(U32(U32(U32(U32(U32(End)))))))), body[56..]) ==
              [Int32(body, 56), Int32(body, 60), Int32(body, 64), Int32(body, 68)]
              + ([Int32(body, 72), Int32(body, 76), Int32(body, 80), Int32(body, 84)] + [])
  {
    FourWords(U32(U32(U32(U32(End)))), body, 56);
    FourWords(End, body, 72);
  }

  lemma SetattrAt(f: seq<nat>, body: seq<byte>)
    requires |body| >= 88 && SizeOf(SETATTR_IN) == 88 && f == Unpack(SETATTR_IN, body)
    ensures |f| == 16
    ensures f[0] == Int32(body, 0) && f[2] == Int64(body, 8) && f[3] == Int64(body, 16) && f[5] == Int64(body, 32)
    ensures f[6] == Int64(body, 40) && f[7] == Int64(body, 48) && f[8] == Int32(body, 56) && f[9] == Int32(body, 60)
    ensures f[10] == Int32(body, 64) && f[11] == Int32(body, 68) && f[13] == Int32(body, 76)
    ensures f[14] == Int32(body, 80)
  {
    var words := U32(U32(U32(U32(U32(U32(U32(U32(End))))))));
    var times := U64(U64(U64(U64(words))));
    assert body[0..] == body;
    WordsThenLongs(times, body, 0);
    FourLongs(words, body, 24);
    SetattrWords(body);
  }

  lemma SetattrIs(u: u64, node: u64, body: seq<byte>)
    ensures DecodeSetattr(u, node, body) ==
              if |body| < 88 then Malformed else Accept(u, WantedSetattr(node, body))
  {
    WireStructSizes();
    SetattrFields();
    if |body| >= 88 {
      SetattrAt(Unpack(SETATTR_IN, body), body);
    }
  }

  lemma AskingByBytes(ops: Ops, op: Opcodes.Opcode, u: u64, node: u64, body: seq<byte>)
    requires Asks(op) && Enabled(ops, op)
    ensures DecodeOp(ops, op, u, node, body) ==
              if Complete(op, body) then Accept(u, Wanted(op, node, body)) else Malformed
  {
    if Transfers(op) { TransferByBytes(ops, op, u, node, body); }
    else if TakesNames(op) { NamedByBytes(ops, op, u, node, body); }
    else { OtherByBytes(ops, op, u, node, body); }
  }

  lemma NamedByBytes(ops: Ops, op: Opcodes.Opcode, u: u64, node: u64, body: seq<byte>)
    requires TakesNames(op) && Enabled(ops, op)
    ensures DecodeOp(ops, op, u, node, body) ==
              if Complete(op, body) then Accept(u, Wanted(op, node, body)) else Malformed
  {
    match op {
      case Mknod => MknodIs(u, node, body);
      case Mkdir => MkdirIs(u, node, body);
      case Create => CreateIs(u, node, body);
      case Rename2 => RenameIs(u, node, body);
    }
  }

  lemma OtherByBytes(ops: Ops, op: Opcodes.Opcode, u: u64, node: u64, body: seq<byte>)
    requires Asks(op) && !Transfers(op) && !TakesNames(op) && Enabled(ops, op)
    ensures DecodeOp(ops, op, u, node, body) ==
              if Complete(op, body) then Accept(u, Wanted(op, node, body)) else Malformed
  {
    assert body[0..] == body;
    match op {
      case Forget => ForgetIs(ops, u, node, body);
      case Setattr => SetattrIs(u, node, body);
      case Open => OpenIs(u, node, body);
      case Release => ReleaseIs(u, node, body);
      case Getxattr => XAttrIs(true, u, node, body);
      case Listxattr => XAttrIs(false, u, node, body);
      case _ =>
    }
  }

  lemma TransferByBytes(ops: Ops, op: Opcodes.Opcode, u: u64, node: u64, body: seq<byte>)
    requires Transfers(op) && Enabled(ops, op)
    ensures DecodeOp(ops, op, u, node, body) ==
              if Complete(op, body) then Accept(u, Wanted(op, node, body)) else Malformed
  {
    match op {
      case Read => ReadIs(Plain, u, node, body);
      case Readdir => ReadIs(Messages.Dir, u, node, body);
      case Readdirplus => ReadIs(DirPlus, u, node, body);
      case Write => WriteIs(u, node, body);
    }
  }

  // ----- batches

  /** The complete records of a batch, but no more than it announces. */
  function RecordCount(body: seq<byte>): nat
    requires |body| >= 8
  {
    Min(Int32(body, 0), (|body| - 8) / 16)
  }

  function RecordsOf(body: seq<byte>): (rs: seq<Request>)
    requires |body| >= 8
    ensures |rs| == RecordCount(body)
  {
    seq(RecordCount(body), i requires 0 <= i < RecordCount(body) =>
      Request(0, ReqForget(Int64(body, 8 + 16 * i), Int64(body, 16 + 16 * i))))
  }

  lemma RecordIs(body: seq<byte>, i: nat)
    requires 8 + 16 * i + 16 <= |body|
    ensures WireRecord(body, i) == (Int64(body, 8 + 16 * i), Int64(body, 16 + 16 * i))
  {
    assert body[8 + 16 * i..][..8] == body[8 + 16 * i..8 + 16 * i + 8];
    assert body[8 + 16 * i..][8..16] == body[16 + 16 * i..16 + 16 * i + 8];
  }

  lemma BatchByBytes(ops: Ops, body: seq<byte>)
    requires ops.forget && |body| >= 8
    ensures DecodeBatchForget(ops, body) == Decoded(RecordsOf(body), false, false, false)
  {
    var d := DecodeBatchForget(ops, body);
    BatchIsItsRecords(ops, body);
    assert body[..4] == body[0..4];
    forall i | 0 <= i < |d.requests| ensures d.requests[i] == RecordsOf(body)[i] { RecordIs(body, i); }
    assert d.requests == RecordsOf(body);
  }

  // ----- any message

  /** Long enough for a header, and as long as its length field says. */
  predicate HasHeader(msg: seq<byte>) { |msg| >= 40 && Int32(msg, 0) == |msg| }

  function OpOf(msg: seq<byte>): Option<Opcodes.Opcode>
    requires HasHeader(msg)
  {
    Opcodes.FromU32(Int32(msg, 4))
  }

  /** What the body of an opcode comes to. */
  function OpByBytes(ops: Ops, op: Opcodes.Opcode, u: u64, node: u64, body: seq<byte>): Decoded
  {
    if op == Opcodes.Destroy then Messages.Finish
    else if op == Opcodes.BatchForget then
      if !ops.forget then Nothing
      else if |body| < 8 then Broken
      else Decoded(RecordsOf(body), false, false, false)
    else if !Asks(op) || (!Enabled(ops, op) && op != Opcodes.Forget) then Reject
    else if !Complete(op, body) then Malformed
    else if !Enabled(ops, op) then Nothing
    else Accept(u, Wanted(op, node, body))
  }

  /** What a message comes to, by its bytes. */
  function ByBytes(ops: Ops, msg: seq<byte>): Decoded
  {
    if !HasHeader(msg) then Broken
    else match OpOf(msg)
      case None => Reject
      case Some(op) => OpByBytes(ops, op, Int64(msg, 8), Int64(msg, 16), msg[40..])
  }

  lemma DecodeOpByBytes(ops: Ops, op: Opcodes.Opcode, u: u64, node: u64, body: seq<byte>)
    ensures DecodeOp(ops, op, u, node, body) == OpByBytes(ops, op, u, node, body)
  {
    if op == Opcodes.BatchForget {
      BatchOpByBytes(ops, u, node, body);
    } else if Asks(op) && Enabled(ops, op) {
      AskingByBytes(ops, op, u, node, body);
    } else if op == Opcodes.Forget {
      ForgetIs(ops, u, node, body);
    } else {
      NotAskingByBytes(ops, op, u, node, body);
    }
  }

  lemma BatchOpByBytes(ops: Ops, u: u64, node: u64, body: seq<byte>)
    ensures DecodeOp(ops, Opcodes.BatchForget, u, node, body) == OpByBytes(ops, Opcodes.BatchForget, u, node, body)
  {
    assert SizeOf(BATCH_FORGET_IN) == 8;
    if ops.forget && |body| >= 8 { BatchByBytes(ops, body); }
  }

  lemma NotAskingByBytes(ops: Ops, op: Opcodes.Opcode, u: u64, node: u64, body: seq<byte>)
    requires op != Opcodes.BatchForget && op != Opcodes.Forget && (!Asks(op) || !Enabled(ops, op))
    ensures DecodeOp(ops, op, u, node, body) == OpByBytes(ops, op, u, node, body)
  {
    if Asks(op) { DisabledIsRejected(ops, op, u, node, body); }
  }

  /** Both ways of decoding agree on any bytes. */
  lemma DecodeIsByBytes(ops: Ops, msg: seq<byte>)
    ensures Decode(ops, msg) == ByBytes(ops, msg)
  {
    HeaderExactly(msg);
    if HasHeader(msg) && OpOf(msg).Some? {
      DecodeOpByBytes(ops, OpOf(msg).value, Int64(msg, 8), Int64(msg, 16), msg[40..]);
    }
  }

  // ----- three kinds of message

  /** The message is an error of the stream: no header, or a body that is cut off. */
  predicate Faulty(ops: Ops, msg: seq<byte>)
  {
    !HasHeader(msg) ||
    (OpOf(msg).Some? && (Enabled(ops, OpOf(msg).value) || OpOf(msg) == Some(Opcodes.Forget))
        && !Complete(OpOf(msg).value, msg[40..]))
  }

  predicate IsDestroy(msg: seq<byte>) { HasHeader(msg) && Int32(msg, 4) == 38 }

  /** It makes at least one request. */
  predicate Requests(ops: Ops, msg: seq<byte>)
  {
    && HasHeader(msg) && OpOf(msg).Some? && Enabled(ops, OpOf(msg).value)
    && if OpOf(msg).value == Opcodes.BatchForget then |msg| >= 64 && Int32(msg, 40) > 0
       else Asks(OpOf(msg).value) && Complete(OpOf(msg).value, msg[40..])
  }

  /** Nobody answers it but the guard, with ENOSYS. */
  predicate Unwanted(ops: Ops, msg: seq<byte>)
  {
    && HasHeader(msg)
    && if OpOf(msg).None? then true
       else var op := OpOf(msg).value;
         && op != Opcodes.Destroy && op != Opcodes.BatchForget
         && if !Asks(op) then true
            else if op == Opcodes.Forget then |msg| < 48
            else !Enabled(ops, op) || !Complete(op, msg[40..])
  }

  lemma BodySlice(msg: seq<byte>)
    requires |msg| >= 44
    ensures Int32(msg[40..], 0) == Int32(msg, 40)
  {
    assert msg[40..][0..4] == msg[40..44];
  }

  lemma OpErrors(ops: Ops, op: Opcodes.Opcode, u: u64, node: u64, body: seq<byte>)
    ensures var d := OpByBytes(ops, op, u, node, body);
            && (d.failed <==> (Enabled(ops, op) || op == Opcodes.Forget) && !Complete(op, body))
            && (d.finish <==> op == Opcodes.Destroy)
  {
    if !Asks(op) {
      OtherErrors(ops, op, u, node, body);
    } else if Complete(op, body) && Enabled(ops, op) {
      assert OpByBytes(ops, op, u, node, body) == Accept(u, Wanted(op, node, body));
    }
  }

  lemma OtherErrors(ops: Ops, op: Opcodes.Opcode, u: u64, node: u64, body: seq<byte>)
    requires !Asks(op)
    ensures var d := OpByBytes(ops, op, u, node, body);
            && (d.failed <==> Enabled(ops, op) && !Complete(op, body)) && (d.finish <==> op == Opcodes.Destroy)
  {
  }

  lemma OpRequests(ops: Ops, op: Opcodes.Opcode, u: u64, node: u64, body: seq<byte>)
    ensures OpByBytes(ops, op, u, node, body).requests != [] <==>
            && Enabled(ops, op)
            && if op == Opcodes.BatchForget then |body| >= 24 && Int32(body, 0) > 0
               else Asks(op) && Complete(op, body)
  {
    if op == Opcodes.BatchForget && |body| >= 8 { assert |RecordsOf(body)| == RecordCount(body); }
  }

  lemma OpRejects(ops: Ops, op: Opcodes.Opcode, u: u64, node: u64, body: seq<byte>)
    ensures var d := OpByBytes(ops, op, u, node, body);
            (d.rejected <==>
                  && op != Opcodes.Destroy && op != Opcodes.BatchForget
                  && if !Asks(op) then true
                     else if op == Opcodes.Forget then |body| < 8
                     else !Enabled(ops, op) || !Complete(op, body))
  {
  }

  lemma KnownErrors(ops: Ops, msg: seq<byte>)
    requires HasHeader(msg) && OpOf(msg).Some?
    ensures ByBytes(ops, msg).failed <==> Faulty(ops, msg)
    ensures ByBytes(ops, msg).finish <==> IsDestroy(msg)
  {
    OpErrors(ops, OpOf(msg).value, Int64(msg, 8), Int64(msg, 16), msg[40..]);
    IsDestroyOpcode(Int32(msg, 4));
  }

  lemma IsDestroyOpcode(v: nat)
    ensures Opcodes.FromU32(v) == Some(Opcodes.Destroy) <==> v == 38
  {
    Opcodes.OpcodeNumbers(Opcodes.Destroy, v);
  }

  lemma KnownRequests(ops: Ops, msg: seq<byte>)
    requires HasHeader(msg) && OpOf(msg).Some?
    ensures ByBytes(ops, msg).requests != [] <==> Requests(ops, msg)
  {
    OpRequests(ops, OpOf(msg).value, Int64(msg, 8), Int64(msg, 16), msg[40..]);
    if |msg| >= 44 { BodySlice(msg); }
  }

  lemma KnownRejects(ops: Ops, msg: seq<byte>)
    requires HasHeader(msg) && OpOf(msg).Some?
    ensures ByBytes(ops, msg).rejected <==> Unwanted(ops, msg)
  {
    OpRejects(ops, OpOf(msg).value, Int64(msg, 8), Int64(msg, 16), msg[40..]);
  }

  lemma OtherKinds(ops: Ops, msg: seq<byte>)
    requires HasHeader(msg) ==> OpOf(msg).None?
    ensures ByBytes(ops, msg) == if HasHeader(msg) then Reject else Broken
    ensures (Faulty(ops, msg) <==> !HasHeader(msg)) && !IsDestroy(msg) && !Requests(ops, msg)
    ensures Unwanted(ops, msg) <==> HasHeader(msg)
  {
  }

  /** What a decoded message says of these kinds. */
  predicate OfKind(ops: Ops, msg: seq<byte>, d: Decoded)
  {
    && (d.failed <==> Faulty(ops, msg)) && (d.finish <==> IsDestroy(msg))
    && (d.requests != [] <==> Requests(ops, msg)) && (d.rejected <==> Unwanted(ops, msg))
  }

  lemma KindByBytes(ops: Ops, msg: seq<byte>)
    ensures OfKind(ops, msg, ByBytes(ops, msg))
  {
    if HasHeader(msg) && OpOf(msg).Some? {
      KnownErrors(ops, msg);
      KnownRequests(ops, msg);
      KnownRejects(ops, msg);
    } else {
      OtherKinds(ops, msg);
    }
  }

  /** What makes requests, what ends the stream, what is an error, and what the guard answers. */
  lemma KindsExactly(ops: Ops, msg: seq<byte>)
    ensures OfKind(ops, msg, Decode(ops, msg))
  {
    DecodeIsByBytes(ops, msg);
    KindByBytes(ops, msg);
  }
}
