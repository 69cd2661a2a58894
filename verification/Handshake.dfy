/** The answer to the INIT message is the first thing the kernel takes, and it is about that message. */
module Handshake {
  import opened Bytes
  import opened Messages
  import opened MessageBytes
  import opened Negotiation
  import opened Replies
  import opened Streams
  import opened StreamInvariants
  import opened SessionRuns
  import opened InitMessages

  /** The k-th write is the first one taken. */
  predicate FirstTaken(log: seq<Attempt>, k: nat)
  {
    k < |log| && log[k].failure.None? && forall j :: 0 <= j < k ==> log[j].failure.Some?
  }

  /** The messages among these inputs. */
  function Received(inputs: seq<Input>): set<seq<byte>>
  {
    set k | 0 <= k < |inputs| && inputs[k].Message? :: inputs[k].bytes
  }

  /** The messages read, or still to come, in these events. */
  function ReceivedIn(events: seq<Event>): set<seq<byte>>
  {
    if events == [] then {}
    else (if events[0].PollEvent? then Received(events[0].inputs) else {}) + ReceivedIn(events[1..])
  }

  /** The first write taken answers the good INIT message `m`. */
  ghost predicate GreetedBy(env: Env, st: Session, m: seq<byte>)
  {
    && GoodInit(m) && |st.past.inits| > 0 && AnswersInit(env, m, st.past.inits[0])
    && exists k: nat :: FirstTaken(st.log, k) && st.log[k] == Attempt(Int64(m, 8), 0, st.past.inits[0], None)
  }

  /** Before initialisation no write was taken; after it the first one taken answered one of the messages
      `seen`. */
  ghost predicate Greeted(env: Env, st: Session, seen: set<seq<byte>>)
  {
    if !st.initDone then forall j :: 0 <= j < |st.log| ==> st.log[j].failure.Some?
    else exists m :: m in seen && GreetedBy(env, st, m)
  }

  lemma InitGreets(env: Env, st: Session, msg: seq<byte>, seen: set<seq<byte>>)
    requires Greeted(env, st, seen) && !st.initDone && st.past.inits == [] && msg in seen
    ensures Greeted(env, HandleInit(env, st, msg).0, seen)
  {
    var (st', ok) := HandleInit(env, st, msg);
    HandleInitExactly(env, st, msg);
    if ok {
      FirstGreets(env, st.log, st', msg);
    } else {
      NoneTaken(env.oracle, st.log, st'.log, Int64Of(msg));
    }
  }

  /** The id the message claims to have. */
  function Int64Of(msg: seq<byte>): u64 { if |msg| >= 16 then Int64(msg, 8) else 0 }

  lemma NoneTaken(o: Oracle, log: seq<Attempt>, log': seq<Attempt>, unique: u64)
    requires forall j :: 0 <= j < |log| ==> log[j].failure.Some?
    requires log' == log || (OneAnswer(o, log, log', unique) && o(|log|).Some?)
    ensures forall j :: 0 <= j < |log'| ==> log'[j].failure.Some?
  {
    assert forall j :: 0 <= j < |log| ==> log'[j] == log[j];
  }

  lemma FirstGreets(env: Env, log: seq<Attempt>, st': Session, msg: seq<byte>)
    requires forall j :: 0 <= j < |log| ==> log[j].failure.Some?
    requires GoodInit(msg) && OneAnswer(env.oracle, log, st'.log, Int64(msg, 8)) && env.oracle(|log|).None?
    requires st'.past.inits == [st'.log[|log|].data] && AnswersInit(env, msg, st'.log[|log|].data)
    ensures GreetedBy(env, st', msg)
  {
    FirstOne(log, st'.log, st'.log[|log|]);
  }

  lemma FirstOne(log: seq<Attempt>, log': seq<Attempt>, a: Attempt)
    requires forall j :: 0 <= j < |log| ==> log[j].failure.Some?
    requires |log'| == |log| + 1 && log'[..|log|] == log && log'[|log|] == a && a.failure.None?
    ensures FirstTaken(log', |log|)
  {
    assert forall j :: 0 <= j < |log| ==> log'[j] == log[j];
  }

  /** Later writes change nothing about the first one taken. */
  lemma StaysGreeted(env: Env, st: Session, st': Session, seen: set<seq<byte>>)
    requires Greeted(env, st, seen) && st.initDone && st'.initDone
    requires st.log <= st'.log && st.past.inits <= st'.past.inits
    ensures Greeted(env, st', seen)
  {
    var m :| m in seen && GreetedBy(env, st, m);
    var k: nat :| FirstTaken(st.log, k) && st.log[k] == Attempt(Int64(m, 8), 0, st.past.inits[0], None);
    assert FirstTaken(st'.log, k);
    assert GreetedBy(env, st', m);
  }

  lemma ReceiveGreets(env: Env, st: Session, bytes: seq<byte>, seen: set<seq<byte>>)
    requires Inv(env, st) && Greeted(env, st, seen) && |bytes| <= READ_BUF_SIZE && bytes in seen
    ensures Greeted(env, Receive(env, st, bytes).0, seen)
  {
    if st.initDone {
      ReceiveGrows(env, st, bytes);
      ReceivedLogs(env, st, bytes);
      StaysGreeted(env, st, Receive(env, st, bytes).0, seen);
    } else {
      var filled := Fill(Refresh(st), bytes);
      assert Read(filled, |bytes|) == bytes;
      InitGreets(env, filled, bytes, seen);
    }
  }

  lemma ReceivedLogs(env: Env, st: Session, bytes: seq<byte>)
    requires Sized(st) && |bytes| <= READ_BUF_SIZE && st.initDone
    ensures st.log <= Receive(env, st, bytes).0.log
  {
  }

  lemma TurnGreets(env: Env, st: Session, input: Input, seen: set<seq<byte>>)
    requires Inv(env, st) && GoodInput(input) && Greeted(env, st, seen)
    requires input.Message? ==> input.bytes in seen
    ensures Greeted(env, Turn(env, st, input).0, seen)
  {
    if input.Message? {
      MessageTurn(env, st, input);
      ReceiveGreets(env, st, input.bytes, seen);
    } else {
      IdleTurn(env, st, input);
      SameGreeted(env, st, Turn(env, st, input).0, seen);
    }
  }

  lemma SameGreeted(env: Env, st: Session, st': Session, seen: set<seq<byte>>)
    requires Greeted(env, st, seen) && SameBooks(st, st')
    ensures Greeted(env, st', seen)
  {
    if st.initDone { StaysGreeted(env, st, st', seen); }
  }

  lemma ReceivedLater(inputs: seq<Input>)
    requires inputs != []
    ensures Received(inputs[1..]) <= Received(inputs)
    ensures inputs[0].Message? ==> inputs[0].bytes in Received(inputs)
  {
  }

  lemma {:induction false} PollGreets(env: Env, st: Session, inputs: seq<Input>, seen: set<seq<byte>>)
    requires Inv(env, st) && GoodInputs(inputs) && Greeted(env, st, seen) && Received(inputs) <= seen
    ensures Greeted(env, Poll(env, st, inputs).0, seen)
    decreases |inputs|
  {
    if st.pending == [] && !st.finished && inputs != [] {
      assert GoodInput(inputs[0]);
      ReceivedLater(inputs);
      TurnKeeps(env, st, inputs[0]);
      TurnGreets(env, st, inputs[0], seen);
      PollTurns(env, st, inputs);
      PollGreets(env, Turn(env, st, inputs[0]).0, inputs[1..], seen);
    } else if st.pending != [] {
      PopGreets(env, st, seen);
    }
  }

  lemma PopGreets(env: Env, st: Session, seen: set<seq<byte>>)
    requires Greeted(env, st, seen) && st.pending != []
    ensures Greeted(env, Pop(st), seen)
  {
    if st.initDone { StaysGreeted(env, st, Pop(st), seen); }
  }

  lemma StepGreets(env: Env, st: Session, e: Event, seen: set<seq<byte>>)
    requires Inv(env, st) && LegalEvent(st, e) && Greeted(env, st, seen) && ReceivedIn([e]) <= seen
    ensures Greeted(env, Step(env, st, e), seen)
  {
    match e {
      case PollEvent(inputs) => PollGreets(env, st, inputs, seen);
      case AnswerEvent(i, call) => AnswerGreets(env, st, i, call, seen);
    }
  }

  lemma AnswerGreets(env: Env, st: Session, i: nat, call: Call, seen: set<seq<byte>>)
    requires Inv(env, st) && i < |st.held| && Offers(st.held[i].body, call) && Greeted(env, st, seen)
    ensures Greeted(env, AnswerHeld(env, st, i, call), seen)
  {
    StaysGreeted(env, st, AnswerHeld(env, st, i, call), seen);
  }

  lemma {:induction false} RunGreets(env: Env, st: Session, events: seq<Event>, seen: set<seq<byte>>)
    requires Inv(env, st) && LegalRun(env, st, events) && Greeted(env, st, seen) && ReceivedIn(events) <= seen
    ensures Greeted(env, Run(env, st, events), seen)
    decreases |events|
  {
    if events != [] {
      assert ReceivedIn([events[0]]) <= ReceivedIn(events) by { assert [events[0]][1..] == []; }
      StepKeeps(env, st, events[0]);
      StepGreets(env, st, events[0], seen);
      RunGreets(env, Step(env, st, events[0]), events[1..], seen);
    }
  }

  /** In every run: before initialisation the kernel has taken no write at all, and after it the first one
      it took is the one successful answer to an INIT message of the run, with what was negotiated with
      that message. */
  lemma InitIsTakenFirst(env: Env, events: seq<Event>)
    requires LegalRun(env, Fresh(), events)
    ensures Greeted(env, Run(env, Fresh(), events), ReceivedIn(events))
    ensures |Run(env, Fresh(), events).past.inits| == One(Run(env, Fresh(), events).initDone)
  {
    FreshInv(env);
    RunKeeps(env, Fresh(), events);
    RunGreets(env, Fresh(), events, ReceivedIn(events));
  }
}
