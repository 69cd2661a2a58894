/** What the kernel gets for each call of the client, written out. */
module Arrivals {
  import opened Bytes
  import opened Protocol
  import opened Messages
  import opened WireReplies
  import opened Replies

  /** A reply with that much data has a length that fits its field. */
  predicate Sendable(n: nat)
  {
    OUT_HEADER_SIZE + n < U32_LIMIT
  }

  function Length(slices: seq<seq<byte>>): nat
  {
    if slices == [] then 0 else |slices[0]| + Length(slices[1..])
  }

  /** The data is what the kernel asked for, or a link target without a NUL. */
  predicate Fitting(b: Body, data: seq<byte>)
    requires Offers(b, ReplyData(data))
  {
    if b.ReqReadlink? then NulFree(data) else |data| <= Asked(b).value
  }

  /** The call writes an answer itself; the others leave that to the guard. */
  predicate Accepts(b: Body, call: Call)
    requires Offers(b, call)
  {
    match call
    case Dropped => b.ReqReaddir? || b.ReqReaddirPlus?
    case Fail(_) => true
    case ReplyEmpty => true
    case ReplyStruct(_) => true
    case ReplyData(data) => if Fitting(b, data) then Sendable(|data|) else b.ReqListXAttr? || b.ReqGetXAttr?
    case ReplyVectored(slices) => Length(slices) <= b.size
    case ReplySize(size) => size < U32_LIMIT && (b.ReqWrite? ==> size <= b.size)
    case ReplyBuffer(filled) => Sendable(|filled|)
  }

  /** The writes a call leads to. */
  function Written(o: Oracle, n: nat, unique: u64, b: Body, call: Call): seq<Attempt>
    requires Offers(b, call)
  {
    Attempts(o, n, unique, PlanOf(b, call))
  }

  /** The first write answers the request with this error and this data, and it is the only one unless it
      fails. */
  ghost predicate Answers(w: seq<Attempt>, unique: u64, error: int, data: seq<byte>, failure: Option<nat>)
  {
    && w != [] && w[0] == Attempt(unique, error, data, failure)
    && (failure.None? ==> |w| == 1)
  }

  lemma {:induction false} FlatLength(slices: seq<seq<byte>>)
    ensures |Flat(slices)| == Length(slices)
  {
    if slices != [] { FlatLength(slices[1..]); }
  }

  /** Byte `j` of the `i`-th slice is where the slices before it end, and `j` further on. */
  lemma {:induction false} SliceInFlat(slices: seq<seq<byte>>, i: nat, j: nat)
    requires i < |slices| && j < |slices[i]|
    ensures Length(slices[..i]) + j < |Flat(slices)| && Flat(slices)[Length(slices[..i]) + j] == slices[i][j]
    decreases i
  {
    if i > 0 {
      SliceInFlat(slices[1..], i - 1, j);
      assert slices[..i][0] == slices[0] && slices[..i][1..] == slices[1..][..i - 1];
    }
  }

  /** Byte `j` of slice `i` is in its place. */
  predicate InPlace(data: seq<byte>, slices: seq<seq<byte>>, i: nat, j: nat)
    requires i < |slices| && j < |slices[i]|
  {
    var p := Length(slices[..i]) + j;
    p < |data| && data[p] == slices[i][j]
  }

  /** The bytes of the slices one after the other. */
  ghost predicate Gathers(data: seq<byte>, slices: seq<seq<byte>>)
  {
    && |data| == Length(slices)
    && forall i: nat, j: nat :: i < |slices| && j < |slices[i]| ==> InPlace(data, slices, i, j)
  }

  lemma FlatGathers(slices: seq<seq<byte>>)
    ensures Gathers(Flat(slices), slices)
  {
    FlatLength(slices);
    forall i: nat, j: nat | i < |slices| && j < |slices[i]| ensures InPlace(Flat(slices), slices, i, j) {
      SliceInFlat(slices, i, j);
    }
  }

  // ----- each kind of call

  /** Data that fits arrives as it is. What does not is refused: by the guard for reads and link targets,
      with ERANGE for attributes. */
  lemma DataArrives(o: Oracle, n: nat, unique: u64, b: Body, data: seq<byte>)
    requires Offers(b, ReplyData(data)) && unique != 0
    ensures var w := Written(o, n, unique, b, ReplyData(data));
            if !Fitting(b, data) then
              w == [Attempt(unique, 0 - (if b.ReqRead? || b.ReqReadlink? then ENOSYS else ERANGE), [], o(n))]
            else if Sendable(|data|) then Answers(w, unique, 0, data, o(n))
            else w == [Attempt(unique, 0 - ENOSYS, [], o(n))]
  {
  }

  /** A vectored answer is one write with the bytes of all slices, whatever becomes of it. */
  lemma VectoredArrives(o: Oracle, n: nat, unique: u64, b: Body, slices: seq<seq<byte>>)
    requires Offers(b, ReplyVectored(slices)) && unique != 0
    ensures var w := Written(o, n, unique, b, ReplyVectored(slices));
            if Length(slices) > b.size then w == [Attempt(unique, 0 - ENOSYS, [], o(n))]
            else if !Sendable(Length(slices)) then w == []
            else |w| == 1 && w[0] == Attempt(unique, 0, w[0].data, o(n)) && Gathers(w[0].data, slices)
  {
    FlatGathers(slices);
  }

  /** The filled part of a reply buffer arrives as it is. */
  lemma BufferArrives(o: Oracle, n: nat, unique: u64, b: Body, filled: seq<byte>)
    requires Offers(b, ReplyBuffer(filled)) && unique != 0
    ensures var w := Written(o, n, unique, b, ReplyBuffer(filled));
            if Sendable(|filled|) then Answers(w, unique, 0, filled, o(n))
            else w == [Attempt(unique, 0 - ENOSYS, [], o(n))]
  {
  }

  /** An error arrives as the errno the client gave; nobody answers a FORGET. */
  lemma ErrnoArrives(o: Oracle, n: nat, unique: u64, b: Body, errno: nat)
    ensures Written(o, n, unique, b, Fail(errno)) ==
              if b.ReqForget? then [] else [Attempt(unique, 0 - errno, [], o(n))]
  {
  }

  /** So does an empty answer. */
  lemma EmptyArrives(o: Oracle, n: nat, unique: u64, b: Body)
    requires Offers(b, ReplyEmpty)
    ensures var w := Written(o, n, unique, b, ReplyEmpty);
            if b.ReqForget? then w == [] else Answers(w, unique, 0, [], o(n))
  {
  }

  /** A request dropped is answered ENOSYS, a directory read EIO. */
  lemma DroppedAnswered(o: Oracle, n: nat, unique: u64, b: Body)
    requires unique != 0
    ensures Written(o, n, unique, b, Dropped) ==
              if b.ReqForget? then []
              else [Attempt(unique, 0 - (if b.ReqReaddir? || b.ReqReaddirPlus? then EIO else ENOSYS), [], o(n))]
  {
  }

  /** A struct arrives: the kernel reads in the one answer what the client replied. */
  lemma StructsArrive(o: Oracle, n: nat, unique: u64, b: Body, out: StructOut)
    requires Offers(b, ReplyStruct(out))
    ensures var w := Written(o, n, unique, b, ReplyStruct(out));
            w != [] && Answers(w, unique, 0, w[0].data, o(n)) && StructFrom(KindFor(b).value, w[0].data) == Some(out)
  {
    var data := StructBytes(out);
    assert PlanOf(b, ReplyStruct(out)) == StructPlan(b, data);
    StructPlanAnswers(o, n, unique, b, data);
    StructReadsBack(out);
  }

  lemma StructPlanAnswers(o: Oracle, n: nat, unique: u64, b: Body, data: seq<byte>)
    requires |data| <= 144
    ensures Answers(Attempts(o, n, unique, StructPlan(b, data)), unique, 0, data, o(n))
  {
  }

  /** A size arrives if it is one the kernel can be told; otherwise the guard answers. */
  lemma SizesArrive(o: Oracle, n: nat, unique: u64, b: Body, size: nat)
    requires Offers(b, ReplySize(size)) && unique != 0
    ensures var w := Written(o, n, unique, b, ReplySize(size));
            if size < U32_LIMIT && (b.ReqWrite? ==> size <= b.size) then
              && w != [] && Answers(w, unique, 0, w[0].data, o(n))
              && |w[0].data| == SizeOf(WRITE_OUT) && Unpack(WRITE_OUT, w[0].data)[0] == size
            else w == [Attempt(unique, 0 - ENOSYS, [], o(n))]
  {
    if size < U32_LIMIT { SizeReadsBack(size); }
  }

  // ----- what follows the first write, and what the client is told

  /** A second write follows exactly if the first one failed and left the guard armed: not after an error,
      not if the guard was disarmed before, and not if the kernel had cancelled a lookup or an open. */
  lemma SecondWriteExactly(o: Oracle, n: nat, unique: u64, b: Body, call: Call)
    requires Offers(b, call) && !b.ReqForget? && unique != 0
    ensures var w := Written(o, n, unique, b, call);
            |w| == 2 <==>
              && w != [] && w[0].error == 0 && o(n).Some?
              && !call.Fail? && !call.ReplyVectored? && !b.ReqCreate?
              && !(o(n) == Some(ENOENT) && (b.ReqLookup? || b.ReqOpen?))
  {
  }

  /** What is left to the guard is answered ENOSYS, and the client is told so. */
  lemma GuardAnswersInstead(o: Oracle, n: nat, unique: u64, b: Body, call: Call)
    requires Offers(b, call) && !b.ReqForget? && unique != 0 && !Accepts(b, call)
    ensures Written(o, n, unique, b, call) == [Attempt(unique, 0 - ENOSYS, [], o(n))]
    ensures Told(b, PlanOf(b, call), Written(o, n, unique, b, call)) == NotSent
  {
    if call.ReplyVectored? { FlatLength(call.slices); }
  }

  /** Exactly when the client is told that its answer was sent, or that the request had been cancelled. */
  lemma ToldExactly(o: Oracle, n: nat, unique: u64, b: Body, call: Call)
    requires Offers(b, call) && !b.ReqForget? && unique != 0
    ensures var w := Written(o, n, unique, b, call);
            var told := Told(b, PlanOf(b, call), w);
            && (told == Sent <==> Accepts(b, call) && w != [] && o(n).None?)
            && (told == Cancelled <==>
                  call.ReplyStruct? && (b.ReqLookup? || b.ReqOpen? || b.ReqCreate?) && o(n) == Some(ENOENT))
  {
    PlanTold(o, n, unique, b, PlanOf(b, call));
    PlanAccepts(b, call);
  }

  /** The plan tries to send something that the client gave, and can. */
  predicate Tries(plan: Plan)
  {
    match plan
    case Silent => false
    case Abandoned => false
    case Refusal(_) => true
    case Reply(data) => Sendable(|data|)
    case CancellableReply(data) => Sendable(|data|)
    case OnlyReply(data) => Sendable(|data|)
  }

  lemma PlanTold(o: Oracle, n: nat, unique: u64, b: Body, plan: Plan)
    requires !plan.Silent? && unique != 0
    requires plan.CancellableReply? || plan.OnlyReply? ==> b.ReqLookup? || b.ReqOpen? || b.ReqCreate? || b.ReqRead?
    requires plan.Reply? ==> !(b.ReqLookup? || b.ReqOpen? || b.ReqCreate?)
    requires plan.CancellableReply? ==> Sendable(|plan.data|)
    ensures var told := Told(b, plan, Attempts(o, n, unique, plan));
            && (told == Sent <==> Tries(plan) && o(n).None?)
            && (told == Cancelled <==> Tries(plan) && (plan.CancellableReply? || plan.OnlyReply?) && !b.ReqRead?
                                       && o(n) == Some(ENOENT))
  {
  }

  lemma PlanAccepts(b: Body, call: Call)
    requires Offers(b, call) && !b.ReqForget?
    ensures var plan := PlanOf(b, call);
            && (Tries(plan) <==> Accepts(b, call) && (call.ReplyVectored? ==> Sendable(Length(call.slices))))
            && (plan.CancellableReply? <==> call.ReplyStruct? && (b.ReqLookup? || b.ReqOpen?))
            && (plan.OnlyReply? <==> (call.ReplyStruct? && b.ReqCreate?)
                                     || (call.ReplyVectored? && Length(call.slices) <= b.size))
            && (plan.Reply? ==> !(b.ReqLookup? || b.ReqOpen? || b.ReqCreate?))
            && (call.ReplyStruct? ==> Tries(plan))
  {
    match call {
      case ReplyStruct(out) => assert PlanOf(b, call) == StructPlan(b, StructBytes(out));
      case ReplyVectored(slices) => FlatLength(slices);
      case _ =>
    }
  }
}
