/** The ledger of replies over whole runs: who gets answered, and how often. */
module Ledger {
  import opened Bytes
  import opened Messages
  import opened DecodeFacts
  import opened Negotiation
  import opened Replies
  import opened Streams
  import opened StreamInvariants
  import opened SessionRuns
  import Opcodes

  function Times(ids: seq<u64>, u: u64): nat
  {
    if ids == [] then 0 else Times(ids[..|ids| - 1], u) + One(ids[|ids| - 1] == u)
  }

  lemma TimesAppend(ids: seq<u64>, id: u64, u: u64)
    ensures Times(ids + [id], u) == Times(ids, u) + One(id == u)
  {
    assert (ids + [id])[..|ids|] == ids;
  }

  /** The messages with this id that are over or under way: answered, in need of no answer, lost, waiting,
      or with the client. */
  function Accounted(st: Session, u: u64): nat
  {
    Successes(st.log, u) + Times(st.past.quiet, u) + Times(st.past.lost, u) + Tally(st.pending, ById(u))
        + Tally(st.held, ById(u))
  }

  function Arrived(st: Session, u: u64): nat
  {
    Times(st.past.ids, u)
  }

  /** No write ever fails. */
  ghost predicate Reliable(o: Oracle)
  {
    forall n: nat :: o(n).None?
  }

  /** How many messages with this id are unaccounted for. */
  function Missing(st: Session, u: u64): int
  {
    Arrived(st, u) - Accounted(st, u)
  }

  /** A step may lose a message, by a failing write, but never accounts for one twice. */
  predicate Balanced(exact: bool, before: int, after: int)
  {
    before <= after && (exact ==> before == after)
  }

  // ----- the steps of a poll

  lemma PopBalances(st: Session, u: u64)
    requires st.pending != []
    ensures Missing(Pop(st), u) == Missing(st, u)
  {
    TallyAdd(st.held, [st.pending[0]], ById(u));
    TallyOne(st.pending[0], ById(u));
  }

  lemma FarewellCounts(o: Oracle, n: nat, unique: u64, u: u64)
    requires u != 0
    ensures Successes(Farewell(o, n, unique), u) == if unique == u && o(n).None? then 1 else 0
  {
    if unique != 0 { SuccessesOfOne(Farewell(o, n, unique)[0], u); }
  }

  lemma {:induction false} TicketsTally(rs: seq<Request>, cur: nat, m: nat, u: u64)
    requires forall i :: 0 <= i < |rs| ==> rs[i].unique != u
    ensures Tally(Tickets(rs, cur, m), ById(u)) == 0
  {
    TallyNone(Tickets(rs, cur, m), ById(u));
  }

  /** A sane message is answered by its guard, becomes one request of its id, or is settled in silence. */
  lemma HandleCounts(d: Decoded, msg: seq<byte>, cur: nat, m: nat, u: u64)
    requires Sane(d, msg) && u != 0
    ensures var mine := ReadHeader(msg).Some? && ReadHeader(msg).value.unique == u;
            Tally(Tickets(d.requests, cur, m), ById(u)) == One(mine && !d.rejected && !Silently(d))
  {
    var ts := Tickets(d.requests, cur, m);
    if |d.requests| == 1 {
      assert ts == [ts[0]];
      TallyOne(ts[0], ById(u));
    } else {
      TicketsTally(d.requests, cur, m, u);
    }
  }

  lemma NotedCounts(ids: seq<u64>, msg: seq<byte>, u: u64)
    ensures Times(Noted(ids, msg), u) ==
              Times(ids, u) + One(ReadHeader(msg).Some? && ReadHeader(msg).value.unique == u)
  {
    if ReadHeader(msg).Some? { TimesAppend(ids, ReadHeader(msg).value.unique, u); }
  }

  lemma HandleBalances(o: Oracle, exact: bool, st: Session, msg: seq<byte>, d: Decoded, u: u64)
    requires Sized(st) && Sane(d, msg) && u != 0 && (exact ==> Reliable(o))
    ensures Balanced(exact, Missing(st, u), Missing(Handle(o, st, msg, d).0, u))
  {
    var m := |st.past.accepted|;
    HandleCounts(d, msg, st.cur, m, u);
    TallyAdd(st.pending, Tickets(d.requests, st.cur, m), ById(u));
    NotedCounts(st.past.ids, msg, u);
    NotedCounts(st.past.quiet, msg, u);
    HandledLog(o, st, msg, d, u);
  }

  /** The kernel takes what an armed guard writes, if the write succeeds. */
  lemma HandledLog(o: Oracle, st: Session, msg: seq<byte>, d: Decoded, u: u64)
    requires Sized(st) && u != 0
    ensures Successes(Handle(o, st, msg, d).0.log, u) ==
              Successes(st.log, u) + One(d.rejected && IdOf(msg) == u && o(|st.log|).None?)
  {
    if d.rejected {
      SuccessesAdd(st.log, Farewell(o, |st.log|, IdOf(msg)), u);
      FarewellCounts(o, |st.log|, IdOf(msg), u);
    }
  }

  lemma GreetBalances(o: Oracle, exact: bool, st: Session, unique: u64, reply: Option<seq<byte>>, u: u64)
    requires exact ==> Reliable(o)
    ensures Balanced(exact, Missing(st, u), Missing(Greet(o, st, unique, reply).0, u))
  {
    var st' := Greet(o, st, unique, reply).0;
    TimesAppend(st.past.ids, unique, u);
    if reply.None? {
      TimesAppend(st.past.lost, unique, u);
    } else {
      OneMoreAttempt(st.log, Attempt(unique, 0, reply.value, o(|st.log|)), u);
      assert st'.past.lost == st.past.lost && st'.past.quiet == st.past.quiet;
    }
  }

  lemma OneMoreAttempt(log: seq<Attempt>, a: Attempt, u: u64)
    ensures Successes(log + [a], u) == Successes(log, u) + Success(a, u)
  {
    SuccessesAdd(log, [a], u);
    SuccessesOfOne(a, u);
  }

  lemma ReceiveBalances(env: Env, exact: bool, st: Session, bytes: seq<byte>, u: u64)
    requires Sized(st) && |bytes| <= READ_BUF_SIZE && u != 0 && (exact ==> Reliable(env.oracle))
    ensures Balanced(exact, Missing(st, u), Missing(Receive(env, st, bytes).0, u))
  {
    var filled := Fill(Refresh(st), bytes);
    SameMissing(st, filled, u);
    ProcessBalances(env, exact, filled, |bytes|, u);
  }

  lemma ProcessBalances(env: Env, exact: bool, st: Session, n: nat, u: u64)
    requires Sized(st) && n <= READ_BUF_SIZE && u != 0 && (exact ==> Reliable(env.oracle))
    ensures Balanced(exact, Missing(st, u), Missing(Process(env, st, n).0, u))
  {
    var msg := Read(st, n);
    if st.initDone {
      EveryMessageIsSane(env.ops, msg);
      HandleBalances(env.oracle, exact, st, msg, Decode(env.ops, msg), u);
    } else if ReadHeader(msg).Some? {
      var h := ReadHeader(msg).value;
      GreetBalances(env.oracle, exact, st, h.unique, InitReply(env, h, msg[IN_HEADER_SIZE..]), u);
    }
  }

  lemma TurnBalances(env: Env, exact: bool, st: Session, input: Input, u: u64)
    requires Sized(st) && GoodInput(input) && u != 0 && (exact ==> Reliable(env.oracle))
    ensures Balanced(exact, Missing(st, u), Missing(Turn(env, st, input).0, u))
  {
    var next := Turn(env, st, input).0;
    if input.Message? {
      MessageTurn(env, st, input);
      ReceiveBalances(env, exact, st, input.bytes, u);
    } else {
      IdleTurn(env, st, input);
      SameMissing(st, next, u);
    }
  }

  lemma SameMissing(st: Session, st': Session, u: u64)
    requires SameBooks(st, st')
    ensures Missing(st', u) == Missing(st, u)
  {
  }

  lemma {:induction false} PollBalances(env: Env, exact: bool, st: Session, inputs: seq<Input>, u: u64)
    requires Sized(st) && GoodInputs(inputs) && u != 0 && (exact ==> Reliable(env.oracle))
    ensures Balanced(exact, Missing(st, u), Missing(Poll(env, st, inputs).0, u))
    decreases |inputs|
  {
    if st.pending != [] {
      PopBalances(st, u);
    } else if !st.finished && inputs != [] {
      assert GoodInput(inputs[0]);
      TurnBalances(env, exact, st, inputs[0], u);
      PollBalances(env, exact, Turn(env, st, inputs[0]).0, inputs[1..], u);
    }
  }

  // ----- answers

  /** Carrying out any plan answers the request, settles it in silence, or loses it. */
  lemma PlanCounts(o: Oracle, exact: bool, log: seq<Attempt>, unique: u64, plan: Plan, u: u64)
    requires u != 0 && (exact ==> Reliable(o))
    ensures var answers := Successes(log + Attempts(o, |log|, unique, plan), u) - Successes(log, u);
            Balanced(exact, answers + One(unique == u && (plan.Silent? || Unsendable(plan))), One(unique == u))
  {
    var w := Attempts(o, |log|, unique, plan);
    SuccessesAdd(log, w, u);
    AnsweredAtMostOnce(o, |log|, unique, plan, u);
    if unique == u && exact { AnsweredExactlyOnce(o, |log|, u, plan); }
    if plan.Silent? || Unsendable(plan) { assert w == [] && Successes(w, u) == 0; }
  }

  lemma AnswerBalances(env: Env, exact: bool, st: Session, i: nat, call: Call, u: u64)
    requires i < |st.held| && Offers(st.held[i].body, call) && u != 0 && (exact ==> Reliable(env.oracle))
    ensures Balanced(exact, Missing(st, u), Missing(AnswerHeld(env, st, i, call), u))
  {
    CarryOutBalances(env.oracle, exact, st, i, PlanOf(st.held[i].body, call), u);
  }

  lemma CarryOutBalances(o: Oracle, exact: bool, st: Session, i: nat, plan: Plan, u: u64)
    requires i < |st.held| && u != 0 && (exact ==> Reliable(o))
    ensures Balanced(exact, Missing(st, u), Missing(CarryOut(o, st, i, plan), u))
  {
    var unique := st.held[i].unique;
    TallyWithout(st.held, i, ById(u));
    TimesAppend(st.past.quiet, unique, u);
    TimesAppend(st.past.lost, unique, u);
    PlanCounts(o, exact, st.log, unique, plan, u);
  }

  lemma {:induction false} RunBalances(env: Env, exact: bool, st: Session, events: seq<Event>, u: u64)
    requires Sized(st) && LegalRun(env, st, events) && u != 0 && (exact ==> Reliable(env.oracle))
    ensures Balanced(exact, Missing(st, u), Missing(Run(env, st, events), u))
    decreases |events|
  {
    if events != [] {
      match events[0] {
        case PollEvent(inputs) => PollBalances(env, exact, st, inputs, u);
        case AnswerEvent(i, call) => AnswerBalances(env, exact, st, i, call, u);
      }
      RunBalances(env, exact, Step(env, st, events[0]), events[1..], u);
    }
  }

  // ----- who takes no answer

  /** A message that takes no answer: DESTROY or a forget. */
  predicate TakesNone(msg: seq<byte>, u: u64)
  {
    && ReadHeader(msg).Some? && ReadHeader(msg).value.unique == u
    && Opcodes.FromU32(ReadHeader(msg).value.opcode) in
         {Some(Opcodes.Destroy), Some(Opcodes.Forget), Some(Opcodes.BatchForget)}
  }

  /** An id settled in silence is that of such a message. */
  predicate QuietExplained(st: Session, u: u64)
  {
    Times(st.past.quiet, u) > 0 ==>
      exists m :: 0 <= m < |st.past.accepted| && TakesNone(st.past.accepted[m], u)
  }

  lemma SilentTakesNone(ops: Ops, msg: seq<byte>, u: u64)
    requires Silently(Decode(ops, msg)) && ReadHeader(msg).Some? && ReadHeader(msg).value.unique == u && u != 0
    ensures TakesNone(msg, u)
  {
    SilentExactly(ops, msg, ReadHeader(msg).value);
  }

  lemma HandleExplained(ops: Ops, o: Oracle, st: Session, msg: seq<byte>, d: Decoded, u: u64)
    requires Sized(st) && QuietExplained(st, u) && d == Decode(ops, msg) && u != 0
    ensures QuietExplained(Handle(o, st, msg, d).0, u)
  {
    var st' := Handle(o, st, msg, d).0;
    NotedCounts(st.past.quiet, msg, u);
    if Times(st.past.quiet, u) > 0 {
      var m :| 0 <= m < |st.past.accepted| && TakesNone(st.past.accepted[m], u);
      assert TakesNone(st'.past.accepted[m], u);
    } else if Times(st'.past.quiet, u) > 0 {
      SilentTakesNone(ops, msg, u);
      assert TakesNone(st'.past.accepted[|st.past.accepted|], u);
    }
  }

  lemma GreetExplained(o: Oracle, st: Session, unique: u64, reply: Option<seq<byte>>, u: u64)
    requires QuietExplained(st, u)
    ensures QuietExplained(Greet(o, st, unique, reply).0, u)
  {
  }

  lemma ReceiveExplained(env: Env, st: Session, bytes: seq<byte>, u: u64)
    requires Sized(st) && QuietExplained(st, u) && |bytes| <= READ_BUF_SIZE && u != 0
    ensures QuietExplained(Receive(env, st, bytes).0, u)
  {
    var filled := Fill(Refresh(st), bytes);
    var msg := Read(filled, |bytes|);
    if filled.initDone {
      HandleExplained(env.ops, env.oracle, filled, msg, Decode(env.ops, msg), u);
    } else if ReadHeader(msg).Some? {
      var h := ReadHeader(msg).value;
      GreetExplained(env.oracle, filled, h.unique, InitReply(env, h, msg[IN_HEADER_SIZE..]), u);
    }
  }

  lemma TurnExplained(env: Env, st: Session, input: Input, u: u64)
    requires Sized(st) && GoodInput(input) && QuietExplained(st, u) && u != 0
    ensures QuietExplained(Turn(env, st, input).0, u)
  {
    if input.Message? { ReceiveExplained(env, st, input.bytes, u); } else { IdleTurn(env, st, input); }
  }

  lemma {:induction false} PollExplained(env: Env, st: Session, inputs: seq<Input>, u: u64)
    requires Sized(st) && GoodInputs(inputs) && QuietExplained(st, u) && u != 0
    ensures QuietExplained(Poll(env, st, inputs).0, u)
    decreases |inputs|
  {
    if st.pending == [] && !st.finished && inputs != [] {
      assert GoodInput(inputs[0]);
      TurnExplained(env, st, inputs[0], u);
      PollExplained(env, Turn(env, st, inputs[0]).0, inputs[1..], u);
    }
  }

  /** A forget the client has came from a message that is one. */
  lemma ForgetTakesNone(env: Env, st: Session, i: nat)
    requires Inv(env, st) && i < |st.held| && st.held[i].body.ReqForget? && st.held[i].unique != 0
    ensures st.held[i].message < |st.past.accepted|
    ensures TakesNone(st.past.accepted[st.held[i].message], st.held[i].unique)
  {
    var t := st.held[i];
    assert Shows(st, t);
    assert View(st, t).body.ReqForget? && View(st, t).unique == t.unique;
    assert st.past.made[t.message] == Decode(env.ops, st.past.accepted[t.message]).requests;
    ForgetOf(env.ops, st.past.accepted[t.message], View(st, t));
  }

  /** A forget with an id comes from a message that takes none. */
  lemma ForgetOf(ops: Ops, msg: seq<byte>, r: Request)
    requires r in Decode(ops, msg).requests && r.body.ReqForget? && r.unique != 0
    ensures TakesNone(msg, r.unique)
  {
    EveryMessageIsSane(ops, msg);
    var rs := Decode(ops, msg).requests;
    var k :| 0 <= k < |rs| && rs[k] == r;
  }

  lemma AnswerExplained(env: Env, st: Session, i: nat, call: Call, u: u64)
    requires Inv(env, st) && i < |st.held| && Offers(st.held[i].body, call) && QuietExplained(st, u) && u != 0
    ensures QuietExplained(AnswerHeld(env, st, i, call), u)
  {
    var t := st.held[i];
    if PlanOf(t.body, call).Silent? && t.unique == u {
      WhichCallsAnswer(t.body, call);
      ForgetTakesNone(env, st, i);
    }
    CarryOutExplained(env.oracle, st, i, PlanOf(t.body, call), u);
  }

  lemma CarryOutExplained(o: Oracle, st: Session, i: nat, plan: Plan, u: u64)
    requires i < |st.held| && QuietExplained(st, u)
    requires plan.Silent? && st.held[i].unique == u ==>
               exists m :: 0 <= m < |st.past.accepted| && TakesNone(st.past.accepted[m], u)
    ensures QuietExplained(CarryOut(o, st, i, plan), u)
  {
    TimesAppend(st.past.quiet, st.held[i].unique, u);
  }

  lemma {:induction false} RunExplained(env: Env, st: Session, events: seq<Event>, u: u64)
    requires Inv(env, st) && LegalRun(env, st, events) && QuietExplained(st, u) && u != 0
    ensures QuietExplained(Run(env, st, events), u)
    decreases |events|
  {
    if events != [] {
      StepKeeps(env, st, events[0]);
      match events[0] {
        case PollEvent(inputs) => PollExplained(env, st, inputs, u);
        case AnswerEvent(i, call) => AnswerExplained(env, st, i, call, u);
      }
      RunExplained(env, Step(env, st, events[0]), events[1..], u);
    }
  }

  // ----- the ledger

  /** Whatever the client does and however writes fare, the kernel takes at most as many answers with an
      id as there were messages with it: one, as ids are not reused. */
  lemma AnsweredAtMostOncePerMessage(env: Env, events: seq<Event>, u: u64)
    requires LegalRun(env, Fresh(), events) && u != 0
    ensures var st := Run(env, Fresh(), events);
            Successes(st.log, u) <= Arrived(st, u)
  {
    RunBalances(env, false, Fresh(), events, u);
  }

  /** If writes never fail, every message is answered exactly once, needs no answer, is lost, waits, or is
      with the client; and only forgets and DESTROY need no answer. */
  lemma AnsweredExactlyOncePerMessage(env: Env, events: seq<Event>, u: u64)
    requires LegalRun(env, Fresh(), events) && u != 0 && Reliable(env.oracle)
    ensures var st := Run(env, Fresh(), events);
            && Accounted(st, u) == Arrived(st, u)
            && QuietExplained(st, u)
  {
    RunBalances(env, true, Fresh(), events, u);
    FreshInv(env);
    RunExplained(env, Fresh(), events, u);
  }

  /** So once a message of any other kind was read and its request is gone, its id was answered. */
  lemma OrdinaryMessagesAreAnswered(env: Env, events: seq<Event>, u: u64)
    requires LegalRun(env, Fresh(), events) && u != 0 && Reliable(env.oracle)
    requires var st := Run(env, Fresh(), events);
             && Tally(st.pending, ById(u)) == 0 && Tally(st.held, ById(u)) == 0 && Times(st.past.lost, u) == 0
             && forall m :: 0 <= m < |st.past.accepted| ==> !TakesNone(st.past.accepted[m], u)
    ensures var st := Run(env, Fresh(), events);
            Successes(st.log, u) == Arrived(st, u)
  {
    AnsweredExactlyOncePerMessage(env, events, u);
  }
}
