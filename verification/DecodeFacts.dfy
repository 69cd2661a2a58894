/** What every message, however malformed, decodes to. */
module DecodeFacts {
  import opened Bytes
  import opened Protocol
  import opened Messages
  import Opcodes

  // ----- one request at most, except for batches

  /** A write's data is inside the message and is what its header says. */
  predicate DataInside(b: Body, body: seq<byte>)
  {
    b.ReqWrite? ==>
      && b.dataOffset == WRITE_DATA_OFFSET && b.dataOffset + b.size <= IN_HEADER_SIZE + |body|
      && b.data == body[b.dataOffset - IN_HEADER_SIZE..b.dataOffset - IN_HEADER_SIZE + b.size]
  }

  predicate GoodBody(b: Body, body: seq<byte>)
  {
    NamesNulFree(b) && NewNameWithin(b, |body|) && DataInside(b, body)
  }

  /** Nothing for the client, or one request with the id of the message. */
  predicate AtMostOne(d: Decoded, unique: u64, body: seq<byte>, forget: bool)
  {
    d.requests == [] ||
    (d == Accept(unique, d.requests[0].body) && GoodBody(d.requests[0].body, body)
        && d.requests[0].body.ReqForget? == forget)
  }

  /** A guard left armed goes with an error. */
  predicate Decided(d: Decoded) { d.rejected ==> d.failed }

  lemma SimpleOnes(ops: Ops, u: u64, node: u64, body: seq<byte>)
    ensures AtMostOne(DecodeForget(ops, u, node, body), u, body, true) && Decided(DecodeForget(ops, u, node, body))
    ensures AtMostOne(DecodeOpen(u, node, body), u, body, false) && Decided(DecodeOpen(u, node, body))
    ensures AtMostOne(DecodeRelease(u, node, body), u, body, false) && Decided(DecodeRelease(u, node, body))
  {
  }

  lemma SetattrAtMostOne(u: u64, node: u64, body: seq<byte>)
    ensures AtMostOne(DecodeSetattr(u, node, body), u, body, false) && Decided(DecodeSetattr(u, node, body))
  {
  }

  lemma ReadsAtMostOne(kind: ReadKind, u: u64, node: u64, body: seq<byte>)
    ensures AtMostOne(DecodeRead(kind, u, node, body), u, body, false) && Decided(DecodeRead(kind, u, node, body))
  {
  }

  lemma NamedOnes(u: u64, node: u64, body: seq<byte>)
    ensures AtMostOne(DecodeMknod(u, node, body), u, body, false) && Decided(DecodeMknod(u, node, body))
    ensures AtMostOne(DecodeMkdir(u, node, body), u, body, false) && Decided(DecodeMkdir(u, node, body))
    ensures AtMostOne(DecodeCreate(u, node, body), u, body, false) && Decided(DecodeCreate(u, node, body))
    ensures AtMostOne(DecodeRename(u, node, body), u, body, false) && Decided(DecodeRename(u, node, body))
  {
    MknodAtMostOne(u, node, body);
    MkdirAtMostOne(u, node, body);
    CreateAtMostOne(u, node, body);
  }

  lemma MknodAtMostOne(u: u64, node: u64, body: seq<byte>)
    ensures AtMostOne(DecodeMknod(u, node, body), u, body, false) && Decided(DecodeMknod(u, node, body))
  {
  }

  lemma MkdirAtMostOne(u: u64, node: u64, body: seq<byte>)
    ensures AtMostOne(DecodeMkdir(u, node, body), u, body, false) && Decided(DecodeMkdir(u, node, body))
  {
  }

  lemma CreateAtMostOne(u: u64, node: u64, body: seq<byte>)
    ensures AtMostOne(DecodeCreate(u, node, body), u, body, false) && Decided(DecodeCreate(u, node, body))
  {
  }

  lemma XAttrAtMostOne(named: bool, u: u64, node: u64, body: seq<byte>)
    ensures AtMostOne(DecodeXAttr(named, u, node, body), u, body, false) && Decided(DecodeXAttr(named, u, node, body))
  {
  }

  lemma WriteAtMostOne(u: u64, node: u64, body: seq<byte>)
    ensures AtMostOne(DecodeWrite(u, node, body), u, body, false) && Decided(DecodeWrite(u, node, body))
  {
    var w := DecodeWrite(u, node, body);
    if w.requests != [] {
      var size := w.requests[0].body.size;
      assert body[WRITE_DATA_OFFSET - IN_HEADER_SIZE..][..size] == body[40..40 + size];
    }
  }

  lemma OpAtMostOne(ops: Ops, op: Opcodes.Opcode, u: u64, node: u64, body: seq<byte>)
    requires op != Opcodes.BatchForget
    ensures AtMostOne(DecodeOp(ops, op, u, node, body), u, body, op == Opcodes.Forget)
  {
    match op {
      case Forget => SimpleOnes(ops, u, node, body);
      case Setattr => SetattrAtMostOne(u, node, body);
      case Open => SimpleOnes(ops, u, node, body);
      case Release => SimpleOnes(ops, u, node, body);
      case Mknod => NamedOnes(u, node, body);
      case Mkdir => NamedOnes(u, node, body);
      case Create => NamedOnes(u, node, body);
      case Rename2 => NamedOnes(u, node, body);
      case _ => TransferAtMostOne(ops, op, u, node, body);
    }
  }

  /** The operations that move data, and the ones that need no body. */
  lemma TransferAtMostOne(ops: Ops, op: Opcodes.Opcode, u: u64, node: u64, body: seq<byte>)
    requires op !in {Opcodes.Forget, Opcodes.BatchForget, Opcodes.Setattr, Opcodes.Open, Opcodes.Release}
    requires op !in {Opcodes.Mknod, Opcodes.Mkdir, Opcodes.Create, Opcodes.Rename2}
    ensures AtMostOne(DecodeOp(ops, op, u, node, body), u, body, false)
  {
    match op {
      case Read => ReadsAtMostOne(Plain, u, node, body);
      case Readdir => ReadsAtMostOne(Dir, u, node, body);
      case Readdirplus => ReadsAtMostOne(DirPlus, u, node, body);
      case Write => WriteAtMostOne(u, node, body);
      case Getxattr => XAttrAtMostOne(true, u, node, body);
      case Listxattr => XAttrAtMostOne(false, u, node, body);
      case _ =>
    }
  }

  // ----- batches of forgets

  /** The i-th record of the body of a batch: an inode, and a count. */
  function WireRecord(body: seq<byte>, i: nat): (u64, u64)
    requires 8 + 16 * i + 16 <= |body|
  {
    (Wrap64(FromLE(body[8 + 16 * i..][..8])), Wrap64(FromLE(body[8 + 16 * i..][8..16])))
  }

  lemma RecordAt(s: seq<byte>)
    requires |s| >= 16
    ensures OneRecordSizes() && Unpack(FORGET_ONE, s) == [FromLE(s[..8]), FromLE(s[8..16])]
  {
    OneRecordSize();
    assert s[8..][..8] == s[8..16];
  }

  predicate OneRecordSizes() { SizeOf(FORGET_ONE) == 16 && Fields(FORGET_ONE) == 2 }

  lemma {:induction false} BatchRecordsAre(count: nat, records: seq<byte>)
    ensures |BatchRecords(count, records)| == Min(count, |records| / 16)
    ensures forall i :: 0 <= i < |BatchRecords(count, records)| ==>
              BatchRecords(count, records)[i] ==
                Request(0, ReqForget(Wrap64(FromLE(records[16 * i..][..8])), Wrap64(FromLE(records[16 * i..][8..16]))))
    decreases count
  {
    if count > 0 && |records| >= 16 {
      RecordAt(records);
      var rest := records[16..];
      BatchRecordsAre(count - 1, rest);
      forall i | 1 <= i < |BatchRecords(count, records)|
        ensures BatchRecords(count, records)[i] ==
                  Request(0, ReqForget(Wrap64(FromLE(records[16 * i..][..8])),
                      Wrap64(FromLE(records[16 * i..][8..16]))))
      {
        assert rest[16 * (i - 1)..] == records[16 * i..];
      }
      assert records[16 * 0..] == records;
    }
  }

  /** A batch with its header yields exactly its complete records, as many as it announces at most, in
      order and unchanged. */
  lemma BatchIsItsRecords(ops: Ops, body: seq<byte>)
    requires ops.forget && |body| >= 8
    ensures var d := DecodeBatchForget(ops, body);
            && |d.requests| == Min(FromLE(body[..4]), (|body| - 8) / 16)
            && (forall i :: 0 <= i < |d.requests| ==>
                  d.requests[i] == Request(0, ReqForget(WireRecord(body, i).0, WireRecord(body, i).1)))
            && !d.rejected && !d.failed && !d.finish
  {
    BatchHeader(body);
    var count, records := FromLE(body[..4]), body[8..];
    BatchRecordsAre(count, records);
    forall i | 0 <= i < |BatchRecords(count, records)|
      ensures BatchRecords(count, records)[i] == Request(0, ReqForget(WireRecord(body, i).0, WireRecord(body, i).1))
    {
      assert records[16 * i..] == body[8 + 16 * i..];
    }
  }

  lemma BatchHeader(body: seq<byte>)
    requires |body| >= 8
    ensures SizeOf(BATCH_FORGET_IN) == 8 && Fields(BATCH_FORGET_IN) == 2
    ensures Unpack(BATCH_FORGET_IN, body)[0] == FromLE(body[..4])
  {
  }

  /** How much the first `n` forgets return of an inode, and how much the first `n` records say. */
  function Forgotten(rs: seq<Request>, inode: u64, n: nat): nat
    requires n <= |rs| && forall i :: 0 <= i < n ==> rs[i].body.ReqForget?
  {
    if n == 0 then 0
    else Forgotten(rs, inode, n - 1) + if rs[n - 1].body.inode == inode then rs[n - 1].body.count else 0
  }

  function Recorded(body: seq<byte>, inode: u64, n: nat): nat
    requires 8 + 16 * n <= |body|
  {
    if n == 0 then 0
    else Recorded(body, inode, n - 1) + if WireRecord(body, n - 1).0 == inode then WireRecord(body, n - 1).1 else 0
  }

  lemma {:induction false} SameSums(rs: seq<Request>, body: seq<byte>, inode: u64, n: nat)
    requires n <= |rs| && 8 + 16 * n <= |body|
    requires forall i :: 0 <= i < n ==> rs[i] == Request(0, ReqForget(WireRecord(body, i).0, WireRecord(body, i).1))
    ensures Forgotten(rs, inode, n) == Recorded(body, inode, n)
  {
    if n > 0 { SameSums(rs, body, inode, n - 1); }
  }

  /** Nothing is lost or made up: for every inode the client is told to forget exactly what the complete
      records of the batch say. */
  lemma BatchConserves(ops: Ops, body: seq<byte>, inode: u64)
    requires ops.forget && |body| >= 8
    ensures var d, n := DecodeBatchForget(ops, body), Min(FromLE(body[..4]), (|body| - 8) / 16);
            && |d.requests| == n && (forall i :: 0 <= i < n ==> d.requests[i].body.ReqForget?)
            && Forgotten(d.requests, inode, n) == Recorded(body, inode, n)
  {
    BatchIsItsRecords(ops, body);
    SameSums(DecodeBatchForget(ops, body).requests, body, inode, |DecodeBatchForget(ops, body).requests|);
  }

  lemma BatchShape(ops: Ops, body: seq<byte>)
    ensures var d := DecodeBatchForget(ops, body);
            && (forall i :: 0 <= i < |d.requests| ==> d.requests[i].unique == 0 && d.requests[i].body.ReqForget?)
            && !d.rejected && !d.finish && (d.failed ==> d.requests == [])
  {
    if ops.forget && |body| >= 8 {
      BatchIsItsRecords(ops, body);
    } else if ops.forget {
      assert SizeOf(BATCH_FORGET_IN) == 8;
    }
  }

  // ----- whole messages

  /** Everything the session relies on about what a message decodes to. */
  predicate Sane(d: Decoded, msg: seq<byte>)
  {
    && (d.rejected ==> ReadHeader(msg).Some? && d.requests == [])
    && (d.failed || d.finish ==> d.requests == [])
    && (d.requests != [] ==> ReadHeader(msg).Some?)
    && (forall i :: 0 <= i < |d.requests| ==> SaneRequest(d.requests[i], msg))
    && (forall i :: 0 <= i < |d.requests| && d.requests[i].body.ReqForget? ==> OfForget(msg))
    && ((|d.requests| == 1 && ReadHeader(msg).Some? && d.requests[0].unique == ReadHeader(msg).value.unique)
        || forall i :: 0 <= i < |d.requests| ==> d.requests[i].unique == 0)
  }

  predicate OfForget(msg: seq<byte>)
  {
    && ReadHeader(msg).Some?
    && Opcodes.FromU32(ReadHeader(msg).value.opcode) in {Some(Opcodes.Forget), Some(Opcodes.BatchForget)}
  }

  predicate SaneRequest(r: Request, msg: seq<byte>)
  {
    && NamesNulFree(r.body) && NewNameWithin(r.body, |msg|)
    && (r.body.ReqWrite? ==>
          && r.body.dataOffset == WRITE_DATA_OFFSET && WRITE_DATA_OFFSET + r.body.size <= |msg|
          && r.body.data == msg[WRITE_DATA_OFFSET..WRITE_DATA_OFFSET + r.body.size])
  }

  lemma BodyOfMessage(b: Body, msg: seq<byte>)
    requires |msg| >= IN_HEADER_SIZE && DataInside(b, msg[IN_HEADER_SIZE..]) && b.ReqWrite?
    ensures WRITE_DATA_OFFSET + b.size <= |msg| && b.data == msg[WRITE_DATA_OFFSET..WRITE_DATA_OFFSET + b.size]
  {
  }

  lemma OneIsSane(d: Decoded, h: Header, op: Opcodes.Opcode, msg: seq<byte>)
    requires ReadHeader(msg) == Some(h) && Opcodes.FromU32(h.opcode) == Some(op)
    requires AtMostOne(d, h.unique, msg[IN_HEADER_SIZE..], op == Opcodes.Forget)
    ensures Sane(d, msg)
  {
    if d.requests != [] {
      var b := d.requests[0].body;
      if b.ReqWrite? { BodyOfMessage(b, msg); }
      assert SaneRequest(d.requests[0], msg);
    }
  }

  lemma OpIsSane(ops: Ops, op: Opcodes.Opcode, h: Header, msg: seq<byte>)
    requires ReadHeader(msg) == Some(h) && Opcodes.FromU32(h.opcode) == Some(op)
    ensures Sane(DecodeOp(ops, op, h.unique, h.node, msg[IN_HEADER_SIZE..]), msg)
  {
    var body := msg[IN_HEADER_SIZE..];
    if op == Opcodes.BatchForget {
      BatchShape(ops, body);
      assert DecodeOp(ops, op, h.unique, h.node, body) == DecodeBatchForget(ops, body);
    } else {
      OpAtMostOne(ops, op, h.unique, h.node, body);
      OneIsSane(DecodeOp(ops, op, h.unique, h.node, body), h, op, msg);
    }
  }

  /** Any bytes at all decode to something sane: requests only with a header that fits, names without
      NUL, write data inside the message, and the id of the message or none. */
  lemma EveryMessageIsSane(ops: Ops, msg: seq<byte>)
    ensures Sane(Decode(ops, msg), msg)
  {
    if ReadHeader(msg).Some? {
      var h := ReadHeader(msg).value;
      if Opcodes.FromU32(h.opcode).Some? {
        OpIsSane(ops, Opcodes.FromU32(h.opcode).value, h, msg);
      }
    }
  }

  /** The header's length field bounds every message that is looked at. */
  lemma MessagesAreShort(msg: seq<byte>)
    requires ReadHeader(msg).Some?
    ensures |msg| < 0x1_0000_0000
  {
    HeaderShape();
    Powers();
    UnpackRepresentable(IN_HEADER, msg);
  }

  // ----- messages without a request

  predicate Unanswerable(op: Opcodes.Opcode) { op == Opcodes.Forget || op == Opcodes.BatchForget }

  /** Well-formed messages whose guard answers ENOSYS: unknown opcodes, INTERRUPT, and operations that
      are not enabled, except forgets. */
  lemma RejectedExactly(ops: Ops, msg: seq<byte>, h: Header)
    requires ReadHeader(msg) == Some(h)
    ensures var d, op := Decode(ops, msg), Opcodes.FromU32(h.opcode);
            (d.rejected && !d.failed) <==>
            (op.None? || op.value == Opcodes.Interrupt || (!Enabled(ops, op.value) && !Unanswerable(op.value)))
  {
    if Opcodes.FromU32(h.opcode).Some? {
      var op, body := Opcodes.FromU32(h.opcode).value, msg[IN_HEADER_SIZE..];
      OpRejected(ops, op, h.unique, h.node, body);
    }
  }

  lemma OpRejected(ops: Ops, op: Opcodes.Opcode, u: u64, node: u64, body: seq<byte>)
    ensures var d := DecodeOp(ops, op, u, node, body);
            (d.rejected && !d.failed) <==> (op == Opcodes.Interrupt || (!Enabled(ops, op) && !Unanswerable(op)))
  {
    if Enabled(ops, op) || Unanswerable(op) {
      if op != Opcodes.Interrupt { EnabledIsDecided(ops, op, u, node, body); }
    } else {
      DisabledIsRejected(ops, op, u, node, body);
    }
  }

  lemma DisabledIsRejected(ops: Ops, op: Opcodes.Opcode, u: u64, node: u64, body: seq<byte>)
    requires !Enabled(ops, op) && !Unanswerable(op)
    ensures DecodeOp(ops, op, u, node, body) == Reject
  {
  }

  /** The opcodes whose body is a struct and names. */
  predicate TakesNames(op: Opcodes.Opcode)
  {
    op == Opcodes.Mknod || op == Opcodes.Mkdir || op == Opcodes.Create || op == Opcodes.Rename2
  }

  lemma NamedIsDecided(ops: Ops, op: Opcodes.Opcode, u: u64, node: u64, body: seq<byte>)
    requires Enabled(ops, op) && TakesNames(op)
    ensures Decided(DecodeOp(ops, op, u, node, body))
  {
    NamedOnes(u, node, body);
  }

  predicate Transfers(op: Opcodes.Opcode)
  {
    op == Opcodes.Read || op == Opcodes.Readdir || op == Opcodes.Readdirplus || op == Opcodes.Write
  }

  lemma TransferIsDecided(ops: Ops, op: Opcodes.Opcode, u: u64, node: u64, body: seq<byte>)
    requires Enabled(ops, op) && Transfers(op)
    ensures Decided(DecodeOp(ops, op, u, node, body))
  {
    match op {
      case Read => ReadsAtMostOne(Plain, u, node, body);
      case Readdir => ReadsAtMostOne(Dir, u, node, body);
      case Readdirplus => ReadsAtMostOne(DirPlus, u, node, body);
      case Write => WriteAtMostOne(u, node, body);
    }
  }

  predicate OfOneStruct(op: Opcodes.Opcode)
  {
    || op == Opcodes.Forget || op == Opcodes.BatchForget || op == Opcodes.Setattr || op == Opcodes.Open
    || op == Opcodes.Release || op == Opcodes.Getxattr || op == Opcodes.Listxattr
  }

  lemma StructIsDecided(ops: Ops, op: Opcodes.Opcode, u: u64, node: u64, body: seq<byte>)
    requires (Enabled(ops, op) || Unanswerable(op)) && OfOneStruct(op)
    ensures Decided(DecodeOp(ops, op, u, node, body))
  {
    match op {
      case BatchForget => BatchShape(ops, body);
      case Setattr => SetattrAtMostOne(u, node, body);
      case Getxattr => XAttrIsDecided(ops, op, u, node, body);
      case Listxattr => XAttrIsDecided(ops, op, u, node, body);
      case _ => SimpleOnes(ops, u, node, body);
    }
  }

  lemma XAttrIsDecided(ops: Ops, op: Opcodes.Opcode, u: u64, node: u64, body: seq<byte>)
    requires Enabled(ops, op) && (op == Opcodes.Getxattr || op == Opcodes.Listxattr)
    ensures Decided(DecodeOp(ops, op, u, node, body))
  {
    XAttrAtMostOne(op == Opcodes.Getxattr, u, node, body);
  }

  lemma BareIsDecided(ops: Ops, op: Opcodes.Opcode, u: u64, node: u64, body: seq<byte>)
    requires (Enabled(ops, op) || Unanswerable(op)) && op != Opcodes.Interrupt
    requires !TakesNames(op) && !Transfers(op) && !OfOneStruct(op)
    ensures Decided(DecodeOp(ops, op, u, node, body))
  {
  }

  lemma EnabledIsDecided(ops: Ops, op: Opcodes.Opcode, u: u64, node: u64, body: seq<byte>)
    requires (Enabled(ops, op) || Unanswerable(op)) && op != Opcodes.Interrupt
    ensures Decided(DecodeOp(ops, op, u, node, body))
  {
    if TakesNames(op) { NamedIsDecided(ops, op, u, node, body); }
    else if Transfers(op) { TransferIsDecided(ops, op, u, node, body); }
    else if OfOneStruct(op) { StructIsDecided(ops, op, u, node, body); }
    else { BareIsDecided(ops, op, u, node, body); }
  }

  /** No answer to this message is due or will be. */
  predicate Silently(d: Decoded)
  {
    !d.rejected && !(|d.requests| == 1 && d.requests[0].unique != 0)
  }

  /** The messages nobody answers: DESTROY, batches of forgets, and complete forgets nobody wants. */
  lemma SilentExactly(ops: Ops, msg: seq<byte>, h: Header)
    requires ReadHeader(msg) == Some(h) && h.unique != 0
    ensures var op := Opcodes.FromU32(h.opcode);
            Silently(Decode(ops, msg)) <==>
            op.Some? && (op.value == Opcodes.Destroy || op.value == Opcodes.BatchForget
                         || (op.value == Opcodes.Forget && !ops.forget && |msg| >= IN_HEADER_SIZE + 8))
  {
    if Opcodes.FromU32(h.opcode).Some? {
      OpSilent(ops, Opcodes.FromU32(h.opcode).value, h.unique, h.node, msg[IN_HEADER_SIZE..]);
    }
  }

  lemma ForgetSilent(ops: Ops, u: u64, node: u64, body: seq<byte>)
    requires u != 0
    ensures Silently(DecodeForget(ops, u, node, body)) <==> !ops.forget && |body| >= 8
  {
    assert SizeOf(FORGET_IN) == 8;
  }

  lemma OpSilent(ops: Ops, op: Opcodes.Opcode, u: u64, node: u64, body: seq<byte>)
    requires u != 0
    ensures Silently(DecodeOp(ops, op, u, node, body)) <==>
            (op == Opcodes.Destroy || op == Opcodes.BatchForget || (op == Opcodes.Forget && !ops.forget && |body| >= 8))
  {
    if op == Opcodes.BatchForget {
      BatchShape(ops, body);
      assert DecodeOp(ops, op, u, node, body) == DecodeBatchForget(ops, body);
    } else if op == Opcodes.Forget {
      ForgetSilent(ops, u, node, body);
      assert DecodeOp(ops, op, u, node, body) == DecodeForget(ops, u, node, body);
    } else {
      OthersNotSilent(ops, op, u, node, body);
    }
  }

  lemma OthersNotSilent(ops: Ops, op: Opcodes.Opcode, u: u64, node: u64, body: seq<byte>)
    requires u != 0 && op != Opcodes.BatchForget && op != Opcodes.Forget
    ensures Silently(DecodeOp(ops, op, u, node, body)) <==> op == Opcodes.Destroy
  {
    NothingIsRejected(ops, op, u, node, body);
    OpAtMostOne(ops, op, u, node, body);
  }

  /** Only DESTROY comes to nothing without an error. */
  lemma NothingIsRejected(ops: Ops, op: Opcodes.Opcode, u: u64, node: u64, body: seq<byte>)
    requires op != Opcodes.BatchForget && op != Opcodes.Forget
    ensures var d := DecodeOp(ops, op, u, node, body);
            d.requests == [] ==> d.rejected == (op != Opcodes.Destroy)
  {
  }
}
