/** Guards, replies and the ledger of writes to the device (src/requests.rs). */
module Replies {
  import opened Bytes
  import opened Protocol
  import opened Messages
  import opened WireReplies

  const OUT_HEADER_SIZE := 16
  const U32_LIMIT := 0x1_0000_0000

  /** One `writev` to the device: whom it answers, what it says, and the errno it failed with. */
  datatype Attempt = Attempt(unique: u64, error: int, data: seq<byte>, failure: Option<nat>)

  /** How the device treats the n-th write: None if it takes it. */
  type Oracle = nat -> Option<nat>

  /** What the client does with a request. `ReplyBuffer` is given by what was added to the buffer of the
      request. */
  datatype Call =
    | Dropped
    | Fail(errno: nat)
    | ReplyEmpty
    | ReplyStruct(out: StructOut)
    | ReplyData(data: seq<byte>)
    | ReplyVectored(slices: seq<seq<byte>>)
    | ReplySize(size: nat)
    | ReplyBuffer(filled: seq<byte>)

  /** What a reply method reports. */
  datatype Outcome = Sent | Cancelled | NotSent

  /** The struct, or pair of structs, that answers a request. */
  function KindFor(b: Body): Option<Kind>
  {
    match b
    case ReqLookup(_, _) => Some(AnEntry)
    case ReqMkdir(_, _, _) => Some(AnEntry)
    case ReqMknod(_, _, _, _) => Some(AnEntry)
    case ReqGetattr(_) => Some(Attributes)
    case ReqSetattr(_, _, _, _) => Some(Attributes)
    case ReqStatfs(_) => Some(Statistics)
    case ReqCreate(_, _, _) => Some(AnEntryAndHandle)
    case ReqOpen(_, _) => Some(AHandle)
    case _ => None
  }

  /** The size the kernel asked for, for requests that read something. */
  function Asked(b: Body): Option<nat>
  {
    match b
    case ReqRead(_, _, size, _) => Some(size)
    case ReqReaddir(_, size, _) => Some(size)
    case ReqReaddirPlus(_, size, _) => Some(size)
    case ReqListXAttr(_, size) => Some(size)
    case ReqGetXAttr(_, _, size) => Some(size)
    case _ => None
  }

  /** The methods each request type has. A reply buffer never outgrows the size asked for. */
  predicate Offers(b: Body, call: Call)
  {
    match call
    case Dropped => true
    case Fail(_) => true
    case ReplyEmpty => b.ReqForget? || b.ReqRelease? || b.ReqUnlink? || b.ReqRmdir? || b.ReqRename?
    case ReplyStruct(out) => KindFor(b) == Some(KindOf(out))
    case ReplyData(_) => b.ReqRead? || b.ReqReadlink? || b.ReqListXAttr? || b.ReqGetXAttr?
    case ReplyVectored(_) => b.ReqRead?
    case ReplySize(_) => b.ReqWrite? || b.ReqListXAttrSize? || b.ReqGetXAttrSize?
    case ReplyBuffer(filled) => (b.ReqReaddir? || b.ReqReaddirPlus? || b.ReqListXAttr?) && |filled| <= Asked(b).value
  }

  // ----- what is written

  /** `send_reply`: nothing is written if the length does not fit its field. */
  function Send(o: Oracle, n: nat, unique: u64, error: int, data: seq<byte>): seq<Attempt>
  {
    if OUT_HEADER_SIZE + |data| < U32_LIMIT then [Attempt(unique, error, data, o(n))] else []
  }

  /** What dropping a guard writes. */
  function Farewell(o: Oracle, n: nat, unique: u64): seq<Attempt>
  {
    if unique == 0 then [] else [Attempt(unique, 0 - ENOSYS, [], o(n))]
  }

  /** What a call amounts to: `Silent` writes nothing; a `Refusal` and an `OnlyReply` disarm the guard
      first; a `Reply` disarms it when it was sent, a `CancellableReply` also when the kernel had
      cancelled the request; `Abandoned` leaves everything to the guard. */
  datatype Plan =
    | Silent
    | Refusal(errno: nat)
    | Reply(data: seq<byte>)
    | CancellableReply(data: seq<byte>)
    | OnlyReply(data: seq<byte>)
    | Abandoned

  function Attempts(o: Oracle, n: nat, unique: u64, plan: Plan): seq<Attempt>
  {
    match plan
    case Silent => []
    case Refusal(errno) => [Attempt(unique, 0 - errno, [], o(n))]
    case Abandoned => Farewell(o, n, unique)
    case OnlyReply(data) => Send(o, n, unique, 0, data)
    case Reply(data) => Backed(o, n, unique, data, false)
    case CancellableReply(data) => Backed(o, n, unique, data, true)
  }

  /** A reply and, unless it disarmed the guard, the guard's own. */
  function Backed(o: Oracle, n: nat, unique: u64, data: seq<byte>, cancellable: bool): seq<Attempt>
  {
    var first := Send(o, n, unique, 0, data);
    if first == [] then Farewell(o, n, unique)
    else if o(n).None? || (cancellable && o(n) == Some(ENOENT)) then first
    else first + Farewell(o, n + 1, unique)
  }

  function Flat(slices: seq<seq<byte>>): seq<byte>
  {
    if slices == [] then [] else slices[0] + Flat(slices[1..])
  }

  /** How the bytes of a struct are sent. */
  function StructPlan(b: Body, data: seq<byte>): Plan
  {
    if b.ReqLookup? || b.ReqOpen? then CancellableReply(data)
    else if b.ReqCreate? then OnlyReply(data)
    else Reply(data)
  }

  /** What each request type makes of a call. */
  function PlanOf(b: Body, call: Call): Plan
    requires Offers(b, call)
  {
    if b.ReqForget? then Silent
    else match call
      case Dropped => if b.ReqReaddir? || b.ReqReaddirPlus? then Refusal(EIO) else Abandoned
      case Fail(errno) => Refusal(errno)
      case ReplyEmpty => Reply([])
      case ReplyStruct(out) =>
        StructPlan(b, StructBytes(out))
      case ReplyData(data) =>
        if b.ReqReadlink? then (if NulFree(data) then Reply(data) else Abandoned)
        else if |data| <= Asked(b).value then Reply(data)
        else if b.ReqRead? then Abandoned
        else Refusal(ERANGE)
      case ReplyVectored(slices) => if |Flat(slices)| <= b.size then OnlyReply(Flat(slices)) else Abandoned
      case ReplySize(size) =>
        if size >= U32_LIMIT || (b.ReqWrite? && size > b.size) then Abandoned else Reply(SizeOut(size))
      case ReplyBuffer(filled) => Reply(filled)
  }

  /** What the method tells its caller. */
  function Told(b: Body, plan: Plan, written: seq<Attempt>): Outcome
  {
    if plan.Silent? then Sent
    else if plan.Abandoned? || written == [] then NotSent
    else if plan.Reply? && written[0].error != 0 then NotSent
    else if written[0].failure.None? then Sent
    else if written[0].failure == Some(ENOENT) && (b.ReqLookup? || b.ReqOpen? || b.ReqCreate?)
        && !plan.Refusal? then Cancelled
    else NotSent
  }

  // ----- the ledger

  /** How many writes answering `unique` the kernel took. */
  function Successes(log: seq<Attempt>, unique: u64): nat
  {
    if log == [] then 0
    else Successes(log[..|log| - 1], unique) + Success(log[|log| - 1], unique)
  }

  function Success(a: Attempt, unique: u64): nat
  {
    if a.unique == unique && a.failure.None? then 1 else 0
  }

  lemma {:induction false} SuccessesAdd(a: seq<Attempt>, b: seq<Attempt>, unique: u64)
    ensures Successes(a + b, unique) == Successes(a, unique) + Successes(b, unique)
  {
    if b == [] {
      assert a + b == a;
    } else {
      assert (a + b)[..|a + b| - 1] == a + b[..|b| - 1];
      SuccessesAdd(a, b[..|b| - 1], unique);
    }
  }

  lemma SuccessesOfOne(a: Attempt, unique: u64)
    ensures Successes([a], unique) == Success(a, unique)
  {
    assert [a][..0] == [];
  }

  lemma SuccessesOfTwo(a: Attempt, b: Attempt, unique: u64)
    ensures Successes([a, b], unique) == Success(a, unique) + Success(b, unique)
  {
    SuccessesOfOne(a, unique);
    SuccessesOfOne(b, unique);
    SuccessesAdd([a], [b], unique);
    assert [a] + [b] == [a, b];
  }

  /** The shape of all plans: at most two writes, both answering the request, the second one an ENOSYS
      after a first that failed. */
  lemma AttemptsShape(o: Oracle, n: nat, unique: u64, plan: Plan)
    ensures var w := Attempts(o, n, unique, plan);
            && |w| <= 2
            && (forall k :: 0 <= k < |w| ==> w[k].unique == unique && w[k].failure == o(n + k))
            && (|w| == 2 ==> w[0].failure.Some? && w[1].error == 0 - ENOSYS && w[1].data == [])
  {
  }

  /** A plan that cannot be carried out: the guard is gone and the reply too long to send. */
  predicate Unsendable(plan: Plan)
  {
    plan.OnlyReply? && OUT_HEADER_SIZE + |plan.data| >= U32_LIMIT
  }

  /** However the writes fare, the kernel gets at most one answer to a request and none to another. */
  lemma AnsweredAtMostOnce(o: Oracle, n: nat, unique: u64, plan: Plan, other: u64)
    ensures Successes(Attempts(o, n, unique, plan), unique) <= 1
    ensures other != unique ==> Successes(Attempts(o, n, unique, plan), other) == 0
  {
    var w := Attempts(o, n, unique, plan);
    AttemptsShape(o, n, unique, plan);
    if |w| == 1 {
      assert w == [w[0]];
      SuccessesOfOne(w[0], unique);
      SuccessesOfOne(w[0], other);
    } else if |w| == 2 {
      assert w == [w[0], w[1]];
      SuccessesOfTwo(w[0], w[1], unique);
      SuccessesOfTwo(w[0], w[1], other);
    }
  }

  /** If writes do not fail, it gets exactly one unless the plan is silent or unsendable. */
  lemma AnsweredExactlyOnce(o: Oracle, n: nat, unique: u64, plan: Plan)
    requires o(n).None? && unique != 0
    ensures Successes(Attempts(o, n, unique, plan), unique) == if plan.Silent? || Unsendable(plan) then 0 else 1
  {
    var w := Attempts(o, n, unique, plan);
    if w != [] {
      assert w == [w[0]];
      SuccessesOfOne(w[0], unique);
    }
  }

  /** Of all calls only those on a FORGET are silent, and only an enormous vectored read is unsendable. */
  lemma WhichCallsAnswer(b: Body, call: Call)
    requires Offers(b, call)
    ensures PlanOf(b, call).Silent? <==> b.ReqForget?
    ensures Unsendable(PlanOf(b, call)) <==>
              && b.ReqRead? && call.ReplyVectored? && |Flat(call.slices)| <= b.size
              && OUT_HEADER_SIZE + |Flat(call.slices)| >= U32_LIMIT
  {
  }

  /** The kernel never gets more data than it asked for, nor data with an error. */
  lemma NeverTooMuch(o: Oracle, n: nat, unique: u64, b: Body, call: Call, k: nat)
    requires Offers(b, call)
    ensures var w := Attempts(o, n, unique, PlanOf(b, call));
            k < |w| && Asked(b).Some? && w[k].error == 0 ==> |w[k].data| <= Asked(b).value
  {
  }

  /** `Sent` means the kernel has the answer, and `Cancelled` that it has none, so that no release will
      come and no lookup was counted. */
  lemma ToldTruly(o: Oracle, n: nat, unique: u64, b: Body, call: Call)
    requires Offers(b, call) && !b.ReqForget?
    ensures var plan := PlanOf(b, call);
            var w := Attempts(o, n, unique, plan);
            && (Told(b, plan, w) == Sent ==> Successes(w, unique) == 1)
            && (Told(b, plan, w) == Cancelled ==> Successes(w, unique) == 0)
  {
    PlanToldTruly(o, n, unique, b, PlanOf(b, call));
  }

  lemma PlanToldTruly(o: Oracle, n: nat, unique: u64, b: Body, plan: Plan)
    requires !plan.Silent? && (plan.CancellableReply? ==> OUT_HEADER_SIZE + |plan.data| < U32_LIMIT)
    requires plan.Reply? ==> !(b.ReqLookup? || b.ReqOpen? || b.ReqCreate?)
    ensures var w := Attempts(o, n, unique, plan);
            && (Told(b, plan, w) == Sent ==> Successes(w, unique) == 1)
            && (Told(b, plan, w) == Cancelled ==> Successes(w, unique) == 0)
  {
    var w := Attempts(o, n, unique, plan);
    AttemptsShape(o, n, unique, plan);
    if |w| == 1 {
      assert w == [w[0]];
      SuccessesOfOne(w[0], unique);
    }
  }

  /** Whenever the reply was not sent, an ENOSYS is all the kernel can have got. */
  lemma OnlyEnosysInstead(o: Oracle, n: nat, unique: u64, b: Body, call: Call, k: nat)
    requires Offers(b, call) && !b.ReqForget?
    ensures var plan := PlanOf(b, call);
            var w := Attempts(o, n, unique, plan);
            Told(b, plan, w) != Sent && k < |w| && w[k].failure.None? ==> w[k].error == 0 - ENOSYS
  {
    AttemptsShape(o, n, unique, PlanOf(b, call));
  }

  // ----- the device and the guards

  class Fd {
    const oracle: Oracle
    var log: seq<Attempt>

    constructor (oracle: Oracle)
      ensures this.oracle == oracle && log == []
    {
      this.oracle := oracle;
      log := [];
    }

    method Writev(unique: u64, error: int, data: seq<byte>) returns (failure: Option<nat>)
      modifies this
      ensures failure == oracle(|old(log)|)
      ensures log == old(log) + [Attempt(unique, error, data, failure)]
    {
      failure := oracle(|log|);
      log := log + [Attempt(unique, error, data, failure)];
    }
  }

  function SendResult(written: seq<Attempt>): Result<()>
  {
    if written == [] then Err(EIO)
    else if written[0].failure.None? then Ok(())
    else Err(written[0].failure.value)
  }

  /** `send_reply` and `send_reply_vectored`. */
  method SendReply(fd: Fd, unique: u64, error: int, data: seq<byte>) returns (r: Result<()>)
    modifies fd
    ensures fd.log == old(fd.log) + Send(fd.oracle, |old(fd.log)|, unique, error, data)
    ensures r == SendResult(Send(fd.oracle, |old(fd.log)|, unique, error, data))
  {
    if OUT_HEADER_SIZE + |data| >= U32_LIMIT { return Err(EIO); }
    var failure := fd.Writev(unique, error, data);
    return if failure.None? then Ok(()) else Err(failure.value);
  }

  /** `id` and `message` say whose guard it is: the id it was made with, and the number of the message. */
  class RequestGuard {
    var unique: u64
    const fd: Fd
    ghost const id: u64
    ghost const message: nat

    constructor (unique: u64, fd: Fd, ghost message: nat)
      ensures this.unique == id == unique && this.fd == fd && this.message == message
    {
      this.unique := unique;
      this.fd := fd;
      this.id := unique;
      this.message := message;
    }

    method Disarm()
      modifies this
      ensures unique == 0
    {
      unique := 0;
    }

    /** The end of a guard's life. */
    method Drop()
      modifies fd
      ensures fd.log == old(fd.log) + Farewell(fd.oracle, |old(fd.log)|, unique)
    {
      if unique != 0 {
        var _ := SendReply(fd, unique, 0 - ENOSYS, []);
      }
    }
  }

  method ReplyErr(g: RequestGuard, errno: nat) returns (r: Result<()>)
    modifies g, g.fd
    ensures g.unique == 0
    ensures var w := Attempts(g.fd.oracle, |old(g.fd.log)|, old(g.unique), Refusal(errno));
            g.fd.log == old(g.fd.log) + w && r == SendResult(w)
  {
    var unique := g.unique;
    g.Disarm();
    r := SendReply(g.fd, unique, 0 - errno, []);
  }

  /** The guard stays armed if the reply was not sent. */
  method ReplyOk(g: RequestGuard, data: seq<byte>) returns (r: Result<()>)
    modifies g, g.fd
    ensures var w := Send(g.fd.oracle, |old(g.fd.log)|, old(g.unique), 0, data);
            && g.fd.log == old(g.fd.log) + w && r == SendResult(w)
            && g.unique == if r.Ok? then 0 else old(g.unique)
  {
    r := SendReply(g.fd, g.unique, 0, data);
    if r.Ok? { g.unique := 0; }
  }

  /** A cancelled request needs no further answer. */
  method ReplyOkCancellable(g: RequestGuard, data: seq<byte>) returns (r: Outcome)
    modifies g, g.fd
    ensures var w := Send(g.fd.oracle, |old(g.fd.log)|, old(g.unique), 0, data);
            && g.fd.log == old(g.fd.log) + w && r == Cancellable(SendResult(w))
            && g.unique == if r.NotSent? then old(g.unique) else 0
  {
    var result := SendReply(g.fd, g.unique, 0, data);
    r := Cancellable(result);
    match r {
      case Sent => g.unique := 0;
      case Cancelled => g.unique := 0;
      case NotSent =>
    }
  }

  function Cancellable(r: Result<()>): Outcome
  {
    match r
    case Ok(_) => Sent
    case Err(errno) => if errno == ENOENT then Cancelled else NotSent
  }

  function Plainly(r: Result<()>): Outcome { if r.Ok? then Sent else NotSent }

  // ----- the methods of the request types; each consumes the request, which drops its guard

  /** A reply that leaves the guard armed on failure. */
  method Respond(g: RequestGuard, data: seq<byte>) returns (r: Outcome)
    modifies g, g.fd
    ensures g.fd.log == old(g.fd.log) + Attempts(g.fd.oracle, |old(g.fd.log)|, old(g.unique), Reply(data))
    ensures r == Plainly(SendResult(Send(g.fd.oracle, |old(g.fd.log)|, old(g.unique), 0, data)))
  {
    var result := ReplyOk(g, data);
    r := Plainly(result);
    g.Drop();
  }

  method RespondCancellable(g: RequestGuard, data: seq<byte>) returns (r: Outcome)
    modifies g, g.fd
    ensures g.fd.log == old(g.fd.log) + Attempts(g.fd.oracle, |old(g.fd.log)|, old(g.unique), CancellableReply(data))
    ensures r == Cancellable(SendResult(Send(g.fd.oracle, |old(g.fd.log)|, old(g.unique), 0, data)))
  {
    r := ReplyOkCancellable(g, data);
    g.Drop();
  }

  /** A reply sent after the guard was disarmed. */
  method RespondDisarmed(g: RequestGuard, data: seq<byte>) returns (r: Result<()>)
    modifies g, g.fd
    ensures g.fd.log == old(g.fd.log) + Attempts(g.fd.oracle, |old(g.fd.log)|, old(g.unique), OnlyReply(data))
    ensures r == SendResult(Send(g.fd.oracle, |old(g.fd.log)|, old(g.unique), 0, data))
  {
    var unique := g.unique;
    g.Disarm();
    r := SendReply(g.fd, unique, 0, data);
  }

  /** The call is refused and the request dropped with its guard armed. */
  method Abandon(g: RequestGuard) returns (r: Outcome)
    modifies g, g.fd
    ensures g.fd.log == old(g.fd.log) + Attempts(g.fd.oracle, |old(g.fd.log)|, old(g.unique), Abandoned)
    ensures r == NotSent
  {
    g.Drop();
    return NotSent;
  }

  method Refuse(g: RequestGuard, errno: nat) returns (r: Outcome)
    modifies g, g.fd
    ensures g.fd.log == old(g.fd.log) + Attempts(g.fd.oracle, |old(g.fd.log)|, old(g.unique), Refusal(errno))
    ensures r == Plainly(SendResult(Attempts(g.fd.oracle, |old(g.fd.log)|, old(g.unique), Refusal(errno))))
  {
    var result := ReplyErr(g, errno);
    r := Plainly(result);
  }

  method Answer(b: Body, g: RequestGuard, call: Call) returns (r: Outcome)
    requires Offers(b, call)
    modifies g, g.fd
    ensures var w := Attempts(g.fd.oracle, |old(g.fd.log)|, old(g.unique), PlanOf(b, call));
            g.fd.log == old(g.fd.log) + w && r == Told(b, PlanOf(b, call), w)
  {
    if b.ReqForget? {
      g.unique := 0;
      g.Drop();
      return Sent;
    }
    match call {
      case Dropped => if b.ReqReaddir? || b.ReqReaddirPlus? { r := Refuse(g, EIO); } else { r := Abandon(g); }
      case Fail(errno) => r := Refuse(g, errno);
      case ReplyEmpty => r := Respond(g, []);
      case ReplyStruct(out) => r := AnswerStruct(b, g, out);
      case ReplyData(data) => r := AnswerData(b, g, data);
      case ReplyVectored(slices) => r := AnswerVectored(b, g, slices);
      case ReplySize(size) => r := AnswerSize(b, g, size);
      case ReplyBuffer(filled) => r := Respond(g, filled);
    }
  }

  method AnswerStruct(b: Body, g: RequestGuard, out: StructOut) returns (r: Outcome)
    requires Offers(b, ReplyStruct(out))
    modifies g, g.fd
    ensures var w := Attempts(g.fd.oracle, |old(g.fd.log)|, old(g.unique), PlanOf(b, ReplyStruct(out)));
            g.fd.log == old(g.fd.log) + w && r == Told(b, PlanOf(b, ReplyStruct(out)), w)
  {
    var data := StructBytes(out);
    assert PlanOf(b, ReplyStruct(out)) == StructPlan(b, data);
    r := SendStruct(b, g, data);
  }

  method SendStruct(b: Body, g: RequestGuard, data: seq<byte>) returns (r: Outcome)
    requires KindFor(b).Some? && OUT_HEADER_SIZE + |data| < U32_LIMIT
    modifies g, g.fd
    ensures var w := Attempts(g.fd.oracle, |old(g.fd.log)|, old(g.unique), StructPlan(b, data));
            g.fd.log == old(g.fd.log) + w && r == Told(b, StructPlan(b, data), w)
  {
    if b.ReqLookup? || b.ReqOpen? {
      r := RespondCancellable(g, data);
    } else if b.ReqCreate? {
      var result := RespondDisarmed(g, data);
      r := Cancellable(result);
    } else {
      r := Respond(g, data);
    }
  }

  method AnswerData(b: Body, g: RequestGuard, data: seq<byte>) returns (r: Outcome)
    requires Offers(b, ReplyData(data)) && !b.ReqForget?
    modifies g, g.fd
    ensures var w := Attempts(g.fd.oracle, |old(g.fd.log)|, old(g.unique), PlanOf(b, ReplyData(data)));
            g.fd.log == old(g.fd.log) + w && r == Told(b, PlanOf(b, ReplyData(data)), w)
  {
    if b.ReqReadlink? {
      if NulFree(data) { r := Respond(g, data); } else { r := Abandon(g); }
    } else if |data| <= Asked(b).value {
      r := Respond(g, data);
    } else if b.ReqRead? {
      r := Abandon(g);
    } else {
      r := Refuse(g, ERANGE);
    }
  }

  method AnswerVectored(b: Body, g: RequestGuard, slices: seq<seq<byte>>) returns (r: Outcome)
    requires Offers(b, ReplyVectored(slices))
    modifies g, g.fd
    ensures var w := Attempts(g.fd.oracle, |old(g.fd.log)|, old(g.unique), PlanOf(b, ReplyVectored(slices)));
            g.fd.log == old(g.fd.log) + w && r == Told(b, PlanOf(b, ReplyVectored(slices)), w)
  {
    var data := Gather(slices);
    if |data| > b.size { r := Abandon(g); return; }
    var result := RespondDisarmed(g, data);
    r := Plainly(result);
  }

  /** The bytes of all slices in order, as one `writev` sends them. */
  method Gather(slices: seq<seq<byte>>) returns (data: seq<byte>)
    ensures data == Flat(slices)
  {
    data := [];
    assert slices[0..] == slices;
    for k := 0 to |slices|
      invariant data + Flat(slices[k..]) == Flat(slices)
    {
      assert slices[k..][0] == slices[k] && slices[k..][1..] == slices[k + 1..];
      assert data + (slices[k] + Flat(slices[k + 1..])) == data + slices[k] + Flat(slices[k + 1..]);
      data := data + slices[k];
    }
  }

  method AnswerSize(b: Body, g: RequestGuard, size: nat) returns (r: Outcome)
    requires Offers(b, ReplySize(size))
    modifies g, g.fd
    ensures var w := Attempts(g.fd.oracle, |old(g.fd.log)|, old(g.unique), PlanOf(b, ReplySize(size)));
            g.fd.log == old(g.fd.log) + w && r == Told(b, PlanOf(b, ReplySize(size)), w)
  {
    if b.ReqWrite? && size > b.size { r := Abandon(g); return; }
    if size >= U32_LIMIT { r := Abandon(g); return; }
    r := Respond(g, SizeOut(size));
  }
}
