/** What holds of a session after any run of polls and answers. */
module SessionRuns {
  import opened Bytes
  import opened Messages
  import opened DecodeFacts
  import opened Negotiation
  import opened Replies
  import opened Streams
  import opened StreamInvariants

  // ----- every step keeps the invariant

  lemma FinishKeeps(env: Env, st: Session, watcher: bool)
    requires Inv(env, st) && st.pending == []
    ensures Inv(env, Stop(st).(watcherDone := watcher || st.watcherDone))
  {
    var st' := Stop(st).(watcherDone := watcher || st.watcherDone);
    SameRequests(st, st');
    forall b: nat | b < |st'.bufs| ensures Owners(st', b) {
      assert Owners(st, b);
    }
  }

  /** The books are untouched. */
  predicate SameBooks(st: Session, st': Session)
  {
    && st'.log == st.log && st'.pending == st.pending && st'.held == st.held && st'.past == st.past
    && st'.initDone == st.initDone
  }

  /** What a turn without a message may come to. */
  predicate Idle(st: Session, st': Session)
    requires Sized(st)
  {
    || st' == st || st' == Refresh(st)
    || st' == Stop(st).(watcherDone := true) || st' == Stop(Refresh(st))
  }

  lemma IdleTurn(env: Env, st: Session, input: Input)
    requires Sized(st) && GoodInput(input) && !input.Message?
    ensures Idle(st, Turn(env, st, input).0) && SameBooks(st, Turn(env, st, input).0)
  {
  }

  lemma IdleKeeps(env: Env, st: Session, st': Session)
    requires Inv(env, st) && st.pending == [] && Idle(st, st')
    ensures Inv(env, st')
  {
    RefreshKeeps(env, st);
    FinishKeeps(env, st, true);
    FinishKeeps(env, Refresh(st), false);
  }

  lemma MessageTurn(env: Env, st: Session, input: Input)
    requires Sized(st) && GoodInput(input) && input.Message?
    ensures Turn(env, st, input).0 == Receive(env, st, input.bytes).0
  {
  }

  lemma TurnKeeps(env: Env, st: Session, input: Input)
    requires Inv(env, st) && GoodInput(input) && st.pending == [] && !st.finished
    ensures Inv(env, Turn(env, st, input).0)
  {
    if input.Message? {
      MessageTurn(env, st, input);
      ReceiveKeeps(env, st, input.bytes);
    } else {
      IdleTurn(env, st, input);
      IdleKeeps(env, st, Turn(env, st, input).0);
    }
  }

  /** A poll with nothing pending takes a turn, and more of them unless that one returns. */
  lemma PollTurns(env: Env, st: Session, inputs: seq<Input>)
    requires Sized(st) && GoodInputs(inputs) && st.pending == [] && !st.finished && inputs != []
    ensures GoodInput(inputs[0])
    ensures var st1 := Turn(env, st, inputs[0]).0;
            Poll(env, st, inputs).0 == st1 || Poll(env, st, inputs).0 == Poll(env, st1, inputs[1..]).0
  {
  }

  lemma {:induction false} PollKeeps(env: Env, st: Session, inputs: seq<Input>)
    requires Inv(env, st) && GoodInputs(inputs)
    ensures Inv(env, Poll(env, st, inputs).0)
    decreases |inputs|
  {
    if st.pending != [] {
      PopKeeps(env, st);
    } else if !st.finished && inputs != [] {
      assert GoodInput(inputs[0]);
      TurnKeeps(env, st, inputs[0]);
      PollKeeps(env, Turn(env, st, inputs[0]).0, inputs[1..]);
    }
  }

  lemma ReleasedOwners(st: Session, i: nat, b: nat)
    requires Owned(st) && Authentic(st) && i < |st.held| && b < |st.bufs|
    ensures var bufs := Released(st.bufs, st.held[i].buf);
            |bufs| == |st.bufs| && bufs[b].data == st.bufs[b].data &&
            bufs[b].strong == One(b == st.cur) + Tally(st.pending, ByBuf(b)) + Tally(Without(st.held, i), ByBuf(b))
  {
    assert Owners(st, b) && Shows(st, st.held[i]);
    TallyWithout(st.held, i, ByBuf(b));
  }

  lemma AnswerKeeps(env: Env, st: Session, i: nat, call: Call)
    requires Inv(env, st) && i < |st.held| && Offers(st.held[i].body, call)
    ensures Inv(env, AnswerHeld(env, st, i, call))
  {
    AnswerOwned(env, st, i, call);
    RequestGone(env, st, i, call);
    GoneKeeps(env, st, AnswerHeld(env, st, i, call), i);
  }

  /** The i-th request of the client is gone; what is pending, the gates and the history of what was read
      and yielded are as before. */
  predicate Gone(st: Session, st': Session, i: nat)
    requires i < |st.held|
  {
    && st'.held == Without(st.held, i) && st'.pending == st.pending && st'.cur == st.cur
    && st'.initDone == st.initDone && st'.finished == st.finished && st'.watcherDone == st.watcherDone
    && st'.past.accepted == st.past.accepted && st'.past.made == st.past.made
    && st'.past.yielded == st.past.yielded && st'.past.inits == st.past.inits
  }

  lemma RequestGone(env: Env, st: Session, i: nat, call: Call)
    requires i < |st.held| && Offers(st.held[i].body, call)
    ensures Gone(st, AnswerHeld(env, st, i, call), i)
  {
  }

  lemma GoneKeeps(env: Env, st: Session, st': Session, i: nat)
    requires Inv(env, st) && i < |st.held| && Gone(st, st', i)
    requires Owned(st') && SameData(st, st') && |st'.bufs| == |st.bufs|
    ensures Inv(env, st')
  {
    assert Owners(st', st'.cur);
    AnswerShows(st, st', i);
  }

  lemma AnswerOwned(env: Env, st: Session, i: nat, call: Call)
    requires Inv(env, st) && i < |st.held| && Offers(st.held[i].body, call)
    ensures var st' := AnswerHeld(env, st, i, call);
            Owned(st') && SameData(st, st') && |st'.bufs| == |st.bufs|
  {
    var st' := AnswerHeld(env, st, i, call);
    forall b: nat | b < |st.bufs|
      ensures |st'.bufs| == |st.bufs| && st'.bufs[b].data == st.bufs[b].data && Owners(st', b)
    {
      ReleasedOwners(st, i, b);
    }
  }

  lemma AnswerShows(st: Session, st': Session, i: nat)
    requires i < |st.held| && st'.held == Without(st.held, i) && st'.pending == st.pending
    requires st'.past.made == st.past.made && st'.past.yielded == st.past.yielded && SameData(st, st')
    requires Authentic(st) && Complete(st)
    ensures Authentic(st') && Complete(st')
  {
    forall k | 0 <= k < |st'.held| ensures Shows(st', st'.held[k]) {
      StillShows(st, st', if k < i then st.held[k] else st.held[k + 1]);
    }
    forall k | 0 <= k < |st.pending|
      ensures Shows(st', st.pending[k]) && View(st', st.pending[k]) == View(st, st.pending[k])
    {
      StillShows(st, st', st.pending[k]);
    }
    SameViews(st, st', st.pending);
  }

  lemma StepKeeps(env: Env, st: Session, e: Event)
    requires Inv(env, st) && LegalEvent(st, e)
    ensures Inv(env, Step(env, st, e))
  {
    match e {
      case PollEvent(inputs) => PollKeeps(env, st, inputs);
      case AnswerEvent(i, call) => AnswerKeeps(env, st, i, call);
    }
  }

  lemma {:induction false} RunKeeps(env: Env, st: Session, events: seq<Event>)
    requires Inv(env, st) && LegalRun(env, st, events)
    ensures Inv(env, Run(env, st, events))
    decreases |events|
  {
    if events != [] {
      StepKeeps(env, st, events[0]);
      RunKeeps(env, Step(env, st, events[0]), events[1..]);
    }
  }

  // ----- the stream is the decoding of the messages

  /** All requests of the messages in order. */
  function Concat(ops: Ops, msgs: seq<seq<byte>>): seq<Request>
  {
    if msgs == [] then [] else Concat(ops, msgs[..|msgs| - 1]) + Decode(ops, msgs[|msgs| - 1]).requests
  }

  lemma {:induction false} JoinedIsConcat(ops: Ops, made: seq<seq<Request>>, msgs: seq<seq<byte>>)
    requires |made| == |msgs| && forall m :: 0 <= m < |made| ==> made[m] == Decode(ops, msgs[m]).requests
    ensures Joined(made) == Concat(ops, msgs)
  {
    if made != [] { JoinedIsConcat(ops, made[..|made| - 1], msgs[..|msgs| - 1]); }
  }

  /** After any run the requests yielded so far followed by those waiting are the in-order concatenation
      of what each message read after initialisation decodes to. */
  lemma StreamIsDecoding(env: Env, events: seq<Event>)
    requires LegalRun(env, Fresh(), events)
    ensures var st := Run(env, Fresh(), events);
            st.past.yielded + Views(st, st.pending) == Concat(env.ops, st.past.accepted)
  {
    FreshInv(env);
    RunKeeps(env, Fresh(), events);
    var st := Run(env, Fresh(), events);
    JoinedIsConcat(env.ops, st.past.made, st.past.accepted);
  }

  // ----- writes keep their data

  /** A write the client has, or will get, shows the bytes behind the headers of its own message, and
      reading them never leaves the buffer. */
  lemma WriteKeepsData(env: Env, events: seq<Event>, t: Ticket)
    requires LegalRun(env, Fresh(), events)
    requires var st := Run(env, Fresh(), events); t in st.held || t in st.pending
    requires t.body.ReqWrite?
    ensures var st := Run(env, Fresh(), events);
            && t.buf.Some? && InBuffer(st.bufs, t.buf.value, t.body.dataOffset, t.body.size)
            && t.message < |st.past.accepted| && WRITE_DATA_OFFSET + t.body.size <= |st.past.accepted[t.message]|
            && View(st, t).body.data ==
                 st.past.accepted[t.message][WRITE_DATA_OFFSET..WRITE_DATA_OFFSET + t.body.size]
  {
    FreshInv(env);
    RunKeeps(env, Fresh(), events);
    TicketShows(env, Run(env, Fresh(), events), t);
  }

  lemma TicketShows(env: Env, st: Session, t: Ticket)
    requires Inv(env, st) && (t in st.held || t in st.pending) && t.body.ReqWrite?
    ensures && t.buf.Some? && InBuffer(st.bufs, t.buf.value, t.body.dataOffset, t.body.size)
            && t.message < |st.past.accepted| && WRITE_DATA_OFFSET + t.body.size <= |st.past.accepted[t.message]|
            && View(st, t).body.data ==
                 st.past.accepted[t.message][WRITE_DATA_OFFSET..WRITE_DATA_OFFSET + t.body.size]
  {
    assert Shows(st, t) by {
      if t in st.held {
        var i :| 0 <= i < |st.held| && st.held[i] == t;
      } else {
        var i :| 0 <= i < |st.pending| && st.pending[i] == t;
      }
    }
    assert st.past.made[t.message] == Decode(env.ops, st.past.accepted[t.message]).requests;
    RequestIsSane(env.ops, st.past.accepted[t.message], View(st, t));
  }

  lemma RequestIsSane(ops: Ops, msg: seq<byte>, r: Request)
    requires r in Decode(ops, msg).requests
    ensures SaneRequest(r, msg)
  {
    EveryMessageIsSane(ops, msg);
    var rs := Decode(ops, msg).requests;
    var k :| 0 <= k < |rs| && rs[k] == r;
  }

  // ----- the history only grows, and the end is the end

  predicate Grown(p: History, q: History)
  {
    p.accepted <= q.accepted && p.yielded <= q.yielded && p.inits <= q.inits
  }

  predicate Later(st: Session, st': Session)
  {
    Grown(st.past, st'.past) && (st.initDone ==> st'.initDone) && (st.finished ==> st'.finished)
  }

  lemma HandleGrows(oracle: Oracle, st: Session, msg: seq<byte>, d: Decoded)
    requires Sized(st)
    ensures Later(st, Handle(oracle, st, msg, d).0)
  {
  }

  lemma GreetGrows(oracle: Oracle, st: Session, unique: u64, reply: Option<seq<byte>>)
    ensures Later(st, Greet(oracle, st, unique, reply).0)
  {
  }

  lemma ReceiveGrows(env: Env, st: Session, bytes: seq<byte>)
    requires Sized(st) && |bytes| <= READ_BUF_SIZE
    ensures Later(st, Receive(env, st, bytes).0)
  {
    var filled := Fill(Refresh(st), bytes);
    var msg := Read(filled, |bytes|);
    if filled.initDone {
      HandleGrows(env.oracle, filled, msg, Decode(env.ops, msg));
    } else if ReadHeader(msg).Some? {
      var h := ReadHeader(msg).value;
      GreetGrows(env.oracle, filled, h.unique, InitReply(env, h, msg[IN_HEADER_SIZE..]));
    }
  }

  lemma TurnGrows(env: Env, st: Session, input: Input)
    requires Sized(st) && GoodInput(input)
    ensures Later(st, Turn(env, st, input).0)
  {
    if input.Message? { ReceiveGrows(env, st, input.bytes); }
  }

  lemma {:induction false} PollGrows(env: Env, st: Session, inputs: seq<Input>)
    requires Sized(st) && GoodInputs(inputs)
    ensures Later(st, Poll(env, st, inputs).0)
    decreases |inputs|
  {
    if st.pending == [] && !st.finished && inputs != [] {
      assert GoodInput(inputs[0]);
      TurnGrows(env, st, inputs[0]);
      PollGrows(env, Turn(env, st, inputs[0]).0, inputs[1..]);
    }
  }

  /** Initialisation and termination are never undone, and no message is forgotten. */
  lemma {:induction false} RunGrows(env: Env, st: Session, events: seq<Event>)
    requires Sized(st) && LegalRun(env, st, events)
    ensures Later(st, Run(env, st, events))
    decreases |events|
  {
    if events != [] {
      var e := events[0];
      if e.PollEvent? { PollGrows(env, st, e.inputs); }
      RunGrows(env, Step(env, st, e), events[1..]);
    }
  }

  /** Once the stream has ended, in any run, polling returns the end at once and looks at nothing. */
  lemma EndIsFinal(env: Env, events: seq<Event>, inputs: seq<Input>)
    requires LegalRun(env, Fresh(), events) && GoodInputs(inputs)
    requires Run(env, Fresh(), events).finished
    ensures var st := Run(env, Fresh(), events);
            Poll(env, st, inputs) == (st, Ended, 0)
  {
    FreshInv(env);
    RunKeeps(env, Fresh(), events);
  }

  /** And it has ended whenever the watcher has, so the watcher is not polled again. */
  lemma WatcherEndsStream(env: Env, events: seq<Event>)
    requires LegalRun(env, Fresh(), events)
    ensures Run(env, Fresh(), events).watcherDone ==> Run(env, Fresh(), events).finished
  {
    FreshInv(env);
    RunKeeps(env, Fresh(), events);
  }

  /** Nothing is read as a request, nor yielded, before an INIT reply was sent; one is sent at most. */
  lemma InitComesFirst(env: Env, events: seq<Event>)
    requires LegalRun(env, Fresh(), events)
    ensures var st := Run(env, Fresh(), events);
            && |st.past.inits| <= 1 && (|st.past.inits| == 1 <==> st.initDone)
            && (|st.past.inits| == 0 ==> st.past.accepted == [] && st.past.yielded == [] && st.held == [])
  {
    FreshInv(env);
    RunKeeps(env, Fresh(), events);
  }
}
