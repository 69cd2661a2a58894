/** What a poll returns, and when the stream ends, by what the outside world does. */
module PollResults {
  import opened Bytes
  import opened Protocol
  import opened Messages
  import opened DecodeFacts
  import opened MessageBytes
  import opened Negotiation
  import opened Replies
  import opened Streams
  import opened StreamInvariants
  import opened SessionRuns
  import opened InitMessages
  import RoundTrips

  // ----- what one input comes to; `started`: the INIT message was answered; `taken`: the next write succeeds

  /** The poll goes on: nothing to read after all, a good INIT message, or a message that makes no request,
      is no error and does not end the stream. */
  predicate GoesOn(ops: Ops, started: bool, taken: bool, i: Input)
  {
    match i
    case WouldBlock => true
    case Message(m) =>
      if started then !Faulty(ops, m) && !IsDestroy(m) && !Requests(ops, m) else GoodInit(m) && taken
    case _ => false
  }

  /** The stream ends: the watcher has, the device has nothing more or is gone, or DESTROY. */
  predicate Ends(started: bool, i: Input)
  {
    match i
    case WatcherReady => true
    case Eof => true
    case ReadFails(errno) => errno == ENODEV || errno == ECONNABORTED
    case Message(m) => started && IsDestroy(m)
    case _ => false
  }

  /** The poll is an error: the device fails otherwise, the message is faulty, or the first message is no
      good INIT message or cannot be answered. */
  predicate Fails(ops: Ops, started: bool, taken: bool, i: Input)
  {
    match i
    case ReadinessFails => true
    case ReadFails(errno) => errno != ENODEV && errno != ECONNABORTED
    case Message(m) => if started then Faulty(ops, m) else !(GoodInit(m) && taken)
    case _ => false
  }

  /** The poll yields a request. */
  predicate Yields(ops: Ops, started: bool, i: Input)
  {
    i.Message? && started && Requests(ops, i.bytes)
  }

  /** Every input does one of these, or is a device that is not ready. */
  lemma OneOfThem(ops: Ops, started: bool, taken: bool, i: Input)
    ensures One(GoesOn(ops, started, taken, i)) + One(Ends(started, i)) + One(Fails(ops, started, taken, i))
            + One(Yields(ops, started, i)) + One(i.NotReady?) == 1
  {
    if i.Message? { OnlyOneKind(ops, i.bytes); }
  }

  lemma OnlyOneKind(ops: Ops, msg: seq<byte>)
    ensures One(Faulty(ops, msg)) + One(IsDestroy(msg)) + One(Requests(ops, msg)) <= 1
  {
  }

  // ----- one turn

  /** The state and the result of a turn that took this input. */
  ghost predicate TurnIs(env: Env, st: Session, i: Input, st': Session, r: Option<Polled>)
  {
    var started, taken := st.initDone, env.oracle(|st.log|).None?;
    && (GoesOn(env.ops, started, taken, i) ==>
          && r.None? && st'.pending == [] && !st'.finished && st'.initDone == (started || i.Message?)
          && (!started && !i.Message? ==> st'.log == st.log))
    && (Ends(started, i) ==> (r == Some(Ended) || r.None?) && st'.finished && st'.pending == [])
    && (Fails(env.ops, started, taken, i) ==> r == Some(Failed) && !st'.finished && st'.pending == [])
    && (i.NotReady? ==> r == Some(Pending) && !st'.finished && st'.pending == [])
    && (Yields(env.ops, started, i) ==>
          && r.None? && !st'.finished && st'.pending != [] && Decode(env.ops, i.bytes).requests != []
          && View(st', st'.pending[0]) == Decode(env.ops, i.bytes).requests[0])
  }

  lemma TurnExactly(env: Env, st: Session, i: Input)
    requires Sized(st) && GoodInput(i) && st.pending == [] && !st.finished
    ensures TurnIs(env, st, i, Turn(env, st, i).0, Turn(env, st, i).1)
  {
    if i.Message? {
      MessageTurnExactly(env, st, i.bytes);
    } else {
      IdleTurnExactly(env, st, i);
    }
  }

  lemma IdleTurnExactly(env: Env, st: Session, i: Input)
    requires Sized(st) && GoodInput(i) && st.pending == [] && !st.finished && !i.Message?
    ensures TurnIs(env, st, i, Turn(env, st, i).0, Turn(env, st, i).1)
  {
  }

  lemma MessageTurnExactly(env: Env, st: Session, bytes: seq<byte>)
    requires Sized(st) && GoodInput(Message(bytes)) && st.pending == [] && !st.finished
    ensures TurnIs(env, st, Message(bytes), Turn(env, st, Message(bytes)).0, Turn(env, st, Message(bytes)).1)
  {
    var (st', ok) := Receive(env, st, bytes);
    ReceivedTurn(env, st, bytes);
    if st.initDone {
      ReceivedStarted(env, st, bytes);
      OnlyOneKind(env.ops, bytes);
    } else {
      ReceivedFirst(env, st, bytes);
    }
  }

  lemma ReceivedTurn(env: Env, st: Session, bytes: seq<byte>)
    requires Sized(st) && GoodInput(Message(bytes))
    ensures var (st', ok) := Receive(env, st, bytes);
            Turn(env, st, Message(bytes)) == (st', if ok then None else Some(Failed))
  {
  }

  lemma FilledRead(st: Session, bytes: seq<byte>)
    requires Sized(st) && |bytes| <= READ_BUF_SIZE
    ensures var filled := Fill(Refresh(st), bytes);
            && Read(filled, |bytes|) == bytes && filled.pending == st.pending && filled.finished == st.finished
            && filled.initDone == st.initDone && filled.log == st.log && filled.past == st.past
            && filled.held == st.held
  {
  }

  lemma ReceivedFirst(env: Env, st: Session, bytes: seq<byte>)
    requires Sized(st) && |bytes| <= READ_BUF_SIZE && st.pending == [] && !st.finished && !st.initDone
    ensures var (st', ok) := Receive(env, st, bytes);
            && (ok <==> GoodInit(bytes) && env.oracle(|st.log|).None?) && st'.initDone == ok
            && st'.pending == [] && !st'.finished
  {
    FilledRead(st, bytes);
    HandleInitExactly(env, Fill(Refresh(st), bytes), bytes);
  }

  lemma ReceivedStarted(env: Env, st: Session, bytes: seq<byte>)
    requires Sized(st) && |bytes| <= READ_BUF_SIZE && st.pending == [] && !st.finished && st.initDone
    ensures var (st', ok) := Receive(env, st, bytes);
            && (ok <==> !Faulty(env.ops, bytes)) && (st'.finished <==> IsDestroy(bytes)) && st'.initDone
            && (st'.pending != [] <==> Requests(env.ops, bytes))
            && Views(st', st'.pending) == Decode(env.ops, bytes).requests
  {
    FilledRead(st, bytes);
    StartedExactly(env, Fill(Refresh(st), bytes), bytes);
  }

  lemma StartedExactly(env: Env, st: Session, msg: seq<byte>)
    requires Sized(st) && |msg| <= READ_BUF_SIZE && Read(st, |msg|) == msg && st.pending == [] && !st.finished
    ensures var (st', ok) := Handle(env.oracle, st, msg, Decode(env.ops, msg));
            && (ok <==> !Faulty(env.ops, msg)) && (st'.finished <==> IsDestroy(msg)) && st'.initDone == st.initDone
            && (st'.pending != [] <==> Requests(env.ops, msg))
            && Views(st', st'.pending) == Decode(env.ops, msg).requests
  {
    KindsExactly(env.ops, msg);
    EveryMessageIsSane(env.ops, msg);
    HandleViews(env.oracle, st, msg, Decode(env.ops, msg));
  }

  /** The only write a started poll makes for a message is the ENOSYS of the guard of one nobody wants. */
  lemma GuardAnswers(env: Env, st: Session, bytes: seq<byte>)
    requires Sized(st) && |bytes| <= READ_BUF_SIZE && st.initDone
    ensures Receive(env, st, bytes).0.log ==
              if Unwanted(env.ops, bytes) && Int64(bytes, 8) != 0
              then st.log + [Attempt(Int64(bytes, 8), 0 - ENOSYS, [], env.oracle(|st.log|))] else st.log
  {
    FilledRead(st, bytes);
    KindsExactly(env.ops, bytes);
    HeaderExactly(bytes);
  }

  // ----- a poll

  /** The INIT message was answered before input `k`: every message that goes on sees to that. */
  predicate Started(before: bool, inputs: seq<Input>, k: nat)
    requires k <= |inputs|
  {
    before || exists j :: 0 <= j < k && inputs[j].Message?
  }

  /** The inputs before the k-th all let the poll go on. */
  ghost predicate AllGoOn(ops: Ops, before: bool, taken: bool, inputs: seq<Input>, k: nat)
    requires k <= |inputs|
  {
    forall j: nat :: j < k ==> GoesOn(ops, Started(before, inputs, j), taken, inputs[j])
  }

  /** The k-th input makes the poll return this. */
  predicate Returns(ops: Ops, started: bool, taken: bool, i: Input, r: Polled)
  {
    && !GoesOn(ops, started, taken, i)
    && (r == Ended <==> Ends(started, i)) && (r == Failed <==> Fails(ops, started, taken, i))
    && (r == Pending <==> i.NotReady?) && (r.Yield? <==> Yields(ops, started, i))
    && (r.Yield? ==> Decode(ops, i.bytes).requests != [] && r.request == Decode(ops, i.bytes).requests[0])
  }

  /** A poll takes inputs until one does not let it go on, and returns what that one makes it return; if
      all of them do, the device is not ready in the end. */
  ghost predicate PollIs(env: Env, st: Session, inputs: seq<Input>, r: Polled, used: nat)
  {
    var before, taken := st.initDone, env.oracle(|st.log|).None?;
    && used <= |inputs|
    && if AllGoOn(env.ops, before, taken, inputs, |inputs|) then used == |inputs| && r == Pending
       else
         && used > 0 && AllGoOn(env.ops, before, taken, inputs, used - 1)
         && Returns(env.ops, Started(before, inputs, used - 1), taken, inputs[used - 1], r)
  }

  lemma StartedLater(before: bool, inputs: seq<Input>, k: nat)
    requires 0 < k <= |inputs|
    ensures Started(before, inputs, k) == Started(before || inputs[0].Message?, inputs[1..], k - 1)
  {
    assert forall j :: 0 <= j < k - 1 ==> inputs[1..][j] == inputs[j + 1];
    if j :| 0 < j < k && inputs[j].Message? { assert inputs[1..][j - 1].Message?; }
  }

  lemma GoOnLater(ops: Ops, before: bool, taken: bool, inputs: seq<Input>, k: nat)
    requires 0 < k <= |inputs|
    ensures AllGoOn(ops, before, taken, inputs, k) <==>
              GoesOn(ops, before, taken, inputs[0])
              && AllGoOn(ops, before || inputs[0].Message?, taken, inputs[1..], k - 1)
  {
    var now := before || inputs[0].Message?;
    assert Started(before, inputs, 0) == before;
    forall j: nat | 0 < j < k
      ensures GoesOn(ops, Started(before, inputs, j), taken, inputs[j]) ==
              GoesOn(ops, Started(now, inputs[1..], j - 1), taken, inputs[1..][j - 1])
    {
      StartedLater(before, inputs, j);
    }
    if AllGoOn(ops, before, taken, inputs, k) {
      forall j: nat | j < k - 1 ensures GoesOn(ops, Started(now, inputs[1..], j), taken, inputs[1..][j]) {
        assert GoesOn(ops, Started(before, inputs, j + 1), taken, inputs[j + 1]);
      }
    }
    if GoesOn(ops, before, taken, inputs[0]) && AllGoOn(ops, now, taken, inputs[1..], k - 1) {
      forall j: nat | j < k ensures GoesOn(ops, Started(before, inputs, j), taken, inputs[j]) {
        if j > 0 { assert GoesOn(ops, Started(now, inputs[1..], j - 1), taken, inputs[1..][j - 1]); }
      }
    }
  }

  /** Once the session has started it does not matter whether the next write would be taken. */
  lemma TakenIrrelevant(ops: Ops, a: bool, b: bool, inputs: seq<Input>, k: nat)
    requires k <= |inputs|
    ensures AllGoOn(ops, true, a, inputs, k) == AllGoOn(ops, true, b, inputs, k)
  {
    assert forall j: nat :: j < k ==> GoesOn(ops, true, a, inputs[j]) == GoesOn(ops, true, b, inputs[j]);
    if AllGoOn(ops, true, a, inputs, k) {
      forall j: nat | j < k ensures GoesOn(ops, Started(true, inputs, j), b, inputs[j]) {
        assert GoesOn(ops, Started(true, inputs, j), a, inputs[j]);
      }
    }
    if AllGoOn(ops, true, b, inputs, k) {
      forall j: nat | j < k ensures GoesOn(ops, Started(true, inputs, j), a, inputs[j]) {
        assert GoesOn(ops, Started(true, inputs, j), b, inputs[j]);
      }
    }
  }

  /** What a poll of the rest comes to, seen from one input before it. */
  lemma PollLater(env: Env, st: Session, st1: Session, inputs: seq<Input>, r: Polled, used: nat)
    requires inputs != [] && GoesOn(env.ops, st.initDone, env.oracle(|st.log|).None?, inputs[0])
    requires st1.initDone == (st.initDone || inputs[0].Message?) && (!st1.initDone ==> st1.log == st.log)
    requires PollIs(env, st1, inputs[1..], r, used)
    ensures PollIs(env, st, inputs, r, used + 1)
  {
    var before, taken := st.initDone, env.oracle(|st.log|).None?;
    var now, taken1 := st1.initDone, env.oracle(|st1.log|).None?;
    GoOnLater(env.ops, before, taken, inputs, |inputs|);
    if now { TakenIrrelevant(env.ops, taken, taken1, inputs[1..], |inputs| - 1); }
    if !AllGoOn(env.ops, now, taken1, inputs[1..], |inputs| - 1) {
      GoOnLater(env.ops, before, taken, inputs, used);
      if now { TakenIrrelevant(env.ops, taken, taken1, inputs[1..], used - 1); }
      StartedLater(before, inputs, used);
      assert inputs[1..][used - 1] == inputs[used];
    }
  }

  /** The first input does not let the poll go on. */
  lemma PollNow(env: Env, st: Session, inputs: seq<Input>, r: Polled)
    requires inputs != []
    requires Returns(env.ops, st.initDone, env.oracle(|st.log|).None?, inputs[0], r)
    ensures PollIs(env, st, inputs, r, 1)
  {
    var before, taken := st.initDone, env.oracle(|st.log|).None?;
    assert Started(before, inputs, 0) == before;
    GoOnLater(env.ops, before, taken, inputs, |inputs|);
  }

  /** With nothing pending and the stream not over: what a poll returns, after how many inputs, and that
      the stream is over afterwards exactly if it returned the end. */
  lemma {:induction false} PollExactly(env: Env, st: Session, inputs: seq<Input>)
    requires Sized(st) && GoodInputs(inputs) && st.pending == [] && !st.finished
    ensures var (st', r, used) := Poll(env, st, inputs);
            PollIs(env, st, inputs, r, used) && (st'.finished <==> r == Ended)
    decreases |inputs|
  {
    if inputs != [] {
      var i := inputs[0];
      assert GoodInput(i);
      var (st1, over) := Turn(env, st, i);
      TurnExactly(env, st, i);
      OneOfThem(env.ops, st.initDone, env.oracle(|st.log|).None?, i);
      if GoesOn(env.ops, st.initDone, env.oracle(|st.log|).None?, i) {
        PollExactly(env, st1, inputs[1..]);
        PollLater(env, st, st1, inputs, Poll(env, st1, inputs[1..]).1, Poll(env, st1, inputs[1..]).2);
      } else {
        PollNow(env, st, inputs, Poll(env, st, inputs).1);
      }
    }
  }

  predicate EndsAt(before: bool, inputs: seq<Input>, k: nat)
    requires k < |inputs|
  {
    Ends(Started(before, inputs, k), inputs[k])
  }

  /** One of the first `n` inputs ends the stream. */
  ghost predicate SomeEnds(before: bool, inputs: seq<Input>, n: nat)
    requires n <= |inputs|
  {
    exists k: nat :: k < n && EndsAt(before, inputs, k)
  }

  /** What goes on does not end the stream. */
  lemma GoingOnIsNoEnd(ops: Ops, before: bool, taken: bool, inputs: seq<Input>, n: nat)
    requires n <= |inputs| && AllGoOn(ops, before, taken, inputs, n)
    ensures !SomeEnds(before, inputs, n)
  {
    forall k: nat | k < n ensures !EndsAt(before, inputs, k) {
      assert GoesOn(ops, Started(before, inputs, k), taken, inputs[k]);
      OneOfThem(ops, Started(before, inputs, k), taken, inputs[k]);
    }
  }

  lemma LastDecides(before: bool, inputs: seq<Input>, n: nat)
    requires 0 < n <= |inputs| && !SomeEnds(before, inputs, n - 1)
    ensures SomeEnds(before, inputs, n) <==> EndsAt(before, inputs, n - 1)
  {
    if k: nat :| k < n && EndsAt(before, inputs, k) { assert k == n - 1; }
  }

  lemma EndIsUsed(env: Env, st: Session, inputs: seq<Input>, r: Polled, used: nat)
    requires PollIs(env, st, inputs, r, used)
    ensures r == Ended <==> SomeEnds(st.initDone, inputs, used)
  {
    var before, taken := st.initDone, env.oracle(|st.log|).None?;
    if AllGoOn(env.ops, before, taken, inputs, |inputs|) {
      GoingOnIsNoEnd(env.ops, before, taken, inputs, |inputs|);
    } else {
      GoingOnIsNoEnd(env.ops, before, taken, inputs, used - 1);
      LastDecides(before, inputs, used);
      assert Returns(env.ops, Started(before, inputs, used - 1), taken, inputs[used - 1], r);
    }
  }

  /** The stream ends exactly if one of the inputs used ends it. */
  lemma StreamEndsExactly(env: Env, st: Session, inputs: seq<Input>)
    requires Sized(st) && GoodInputs(inputs) && st.pending == [] && !st.finished
    ensures var (st', r, used) := Poll(env, st, inputs);
            st'.finished <==> SomeEnds(st.initDone, inputs, used)
  {
    PollExactly(env, st, inputs);
    EndIsUsed(env, st, inputs, Poll(env, st, inputs).1, Poll(env, st, inputs).2);
  }

  /** What waits comes first, whatever happens outside. */
  lemma QueueFirst(env: Env, st: Session, inputs: seq<Input>)
    requires Sized(st) && GoodInputs(inputs) && st.pending != []
    ensures var (st', r, used) := Poll(env, st, inputs);
            && r == Yield(View(st, st.pending[0])) && used == 0
            && st'.pending == st.pending[1..] && st'.held == st.held + [st.pending[0]]
            && st'.log == st.log && st'.finished == st.finished
  {
  }

  lemma RefreshTwice(st: Session)
    requires Sized(st)
    ensures Refresh(Refresh(st)) == Refresh(st)
  {
  }

  /** A read that finds nothing is as good as none: the poll goes on with the rest, and nothing is different
      but that a shared read buffer may have been replaced already. */
  lemma WouldBlockIsNothing(env: Env, st: Session, rest: seq<Input>)
    requires Sized(st) && GoodInputs(rest) && st.pending == [] && !st.finished
    ensures GoodInputs([WouldBlock] + rest)
    ensures var (a, b) := (Poll(env, st, [WouldBlock] + rest), Poll(env, st, rest));
            && a.1 == b.1 && a.2 == b.2 + 1 && (a.0 == b.0 || a.0 == Refresh(b.0))
            && a.0.pending == b.0.pending && a.0.held == b.0.held && a.0.log == b.0.log && a.0.past == b.0.past
            && a.0.initDone == b.0.initDone && a.0.finished == b.0.finished
  {
    var inputs := [WouldBlock] + rest;
    assert inputs[1..] == rest;
    assert Poll(env, st, inputs) == OneMore(Poll(env, Refresh(st), rest));
    RefreshedPoll(env, st, rest);
  }

  /** A turn does not care whether the buffer was replaced before. */
  lemma SameTurn(env: Env, st: Session, i: Input)
    requires Sized(st) && GoodInput(i)
    ensures Turn(env, Refresh(st), i).1 == Turn(env, st, i).1
    ensures Turn(env, Refresh(st), i).0 == Turn(env, st, i).0 ||
            (Turn(env, st, i).1.Some? && Turn(env, Refresh(st), i).0 == Refresh(Turn(env, st, i).0))
  {
    RefreshTwice(st);
  }

  lemma RefreshedPoll(env: Env, st: Session, inputs: seq<Input>)
    requires Sized(st) && GoodInputs(inputs) && st.pending == [] && !st.finished
    ensures var (a, b) := (Poll(env, Refresh(st), inputs), Poll(env, st, inputs));
            a.1 == b.1 && a.2 == b.2 && (a.0 == b.0 || a.0 == Refresh(b.0))
  {
    if inputs != [] { SameTurn(env, st, inputs[0]); }
  }

  // ----- what is yielded is handed over

  lemma TurnHandsNothing(env: Env, st: Session, i: Input)
    requires Sized(st) && GoodInput(i)
    ensures var st' := Turn(env, st, i).0; st'.past.yielded == st.past.yielded && st'.held == st.held
  {
    if i.Message? { ReceivedTurn(env, st, i.bytes); ReceiveHandsNothing(env, st, i.bytes); }
    else { IdleTurn(env, st, i); }
  }

  lemma ReceiveHandsNothing(env: Env, st: Session, bytes: seq<byte>)
    requires Sized(st) && |bytes| <= READ_BUF_SIZE
    ensures var st' := Receive(env, st, bytes).0; st'.past.yielded == st.past.yielded && st'.held == st.held
  {
    FilledRead(st, bytes);
    if !st.initDone { HandleInitExactly(env, Fill(Refresh(st), bytes), bytes); }
  }

  /** A request a poll returns is one more the client has; otherwise it has the same ones. */
  lemma {:induction false} YieldedIsHeld(env: Env, st: Session, inputs: seq<Input>)
    requires Sized(st) && GoodInputs(inputs)
    ensures var (st', r, used) := Poll(env, st, inputs);
            if r.Yield? then st'.past.yielded == st.past.yielded + [r.request] && |st'.held| == |st.held| + 1
            else st'.past.yielded == st.past.yielded && st'.held == st.held
    decreases |inputs|
  {
    if st.pending == [] && !st.finished && inputs != [] {
      assert GoodInput(inputs[0]);
      TurnHandsNothing(env, st, inputs[0]);
      YieldedIsHeld(env, Turn(env, st, inputs[0]).0, inputs[1..]);
    }
  }

  // ----- from the start

  /** A new session that gets a good INIT message, and can answer it, yields the first request of the next
      message that makes one. */
  lemma StartsAndYields(env: Env, init: seq<byte>, m: seq<byte>)
    requires GoodInit(init) && Requests(env.ops, m) && |init| <= READ_BUF_SIZE && |m| <= READ_BUF_SIZE
    requires env.oracle(0).None?
    ensures var inputs := [Message(init), Message(m)];
            && GoodInputs(inputs) && Decode(env.ops, m).requests != []
            && var (st', r, used) := Poll(env, Fresh(), inputs);
               && r == Yield(Decode(env.ops, m).requests[0]) && used == 2
               && st'.initDone && st'.past.yielded == [r.request] && |st'.held| == 1
  {
    var inputs := [Message(init), Message(m)];
    assert |init| > 0 && |m| > 0;
    PollExactly(env, Fresh(), inputs);
    SecondYields(env, Fresh(), init, m, Poll(env, Fresh(), inputs).1, Poll(env, Fresh(), inputs).2);
    FreshYields(env, inputs);
  }

  lemma FreshYields(env: Env, inputs: seq<Input>)
    requires GoodInputs(inputs)
    ensures var (st', r, used) := Poll(env, Fresh(), inputs);
            r.Yield? ==> st'.past.yielded == [r.request] && |st'.held| == 1 && st'.initDone
  {
    YieldedIsHeld(env, Fresh(), inputs);
    FreshInv(env);
    PollKeeps(env, Fresh(), inputs);
  }

  lemma SecondYields(env: Env, st: Session, init: seq<byte>, m: seq<byte>, r: Polled, used: nat)
    requires GoodInit(init) && Requests(env.ops, m) && !st.initDone && env.oracle(|st.log|).None?
    requires PollIs(env, st, [Message(init), Message(m)], r, used)
    ensures used == 2 && Decode(env.ops, m).requests != [] && r == Yield(Decode(env.ops, m).requests[0])
  {
    var inputs := [Message(init), Message(m)];
    OnlyOneKind(env.ops, m);
    assert Started(false, inputs, 1) by { assert inputs[0].Message?; }
    assert GoesOn(env.ops, Started(false, inputs, 0), true, inputs[0]);
    assert !GoesOn(env.ops, Started(false, inputs, 1), true, inputs[1]);
  }

  /** So an INIT message of major version 7 and a LOOKUP yield that LOOKUP. */
  lemma LookupAfterInit(env: Env, k: RoundTrips.Sender, init: InitIn, flags2: u32, unused: seq<u32>,
          s: RoundTrips.Sender, name: Name)
    requires init.major == 7 && |unused| == 11 && env.oracle(0).None? && env.ops.lookup
    requires NulFree(name) && |name| <= READ_BUF_SIZE - 41
    ensures var msg := RoundTrips.Message(s, RoundTrips.KLookup(name));
            var inputs := [Message(InitMessage(k, init, flags2, unused, [])), Message(msg)];
            && LegalRun(env, Fresh(), [PollEvent(inputs)])
            && Run(env, Fresh(), [PollEvent(inputs)]).past.yielded == [Request(s.unique, ReqLookup(s.node, name))]
  {
    var first, msg := InitMessage(k, init, flags2, unused, []), RoundTrips.Message(s, RoundTrips.KLookup(name));
    InitMessageReads(k, init, flags2, unused, []);
    LookupReads(env.ops, s, name);
    StartsAndYields(env, first, msg);
    OneEvent(env, Fresh(), PollEvent([Message(first), Message(msg)]));
  }

  lemma LookupReads(ops: Ops, s: RoundTrips.Sender, name: Name)
    requires ops.lookup && NulFree(name) && |name| <= READ_BUF_SIZE - 41
    ensures var msg := RoundTrips.Message(s, RoundTrips.KLookup(name));
            && |msg| == 41 + |name| && Requests(ops, msg)
            && Decode(ops, msg).requests == [Request(s.unique, ReqLookup(s.node, name))]
  {
    HeaderShape();
    RoundTrips.MessageDecodes(ops, s, RoundTrips.KLookup(name));
    KindsExactly(ops, RoundTrips.Message(s, RoundTrips.KLookup(name)));
  }

  lemma OneEvent(env: Env, st: Session, e: Event)
    requires Sized(st) && LegalEvent(st, e)
    ensures LegalRun(env, st, [e]) && Run(env, st, [e]) == Step(env, st, e)
  {
    assert [e][1..] == [];
  }
}
