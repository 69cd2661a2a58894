/** What every turn of the session keeps: exact reference counts, views of the messages they came from,
    and a stream that is the decoding of the messages in order. */
module StreamInvariants {
  import opened Bytes
  import opened Messages
  import opened DecodeFacts
  import opened Negotiation
  import opened Replies
  import opened Streams

  // ----- counting

  lemma {:induction false} TallyAdd(a: seq<Ticket>, b: seq<Ticket>, k: Key)
    ensures Tally(a + b, k) == Tally(a, k) + Tally(b, k)
  {
    if a == [] {
      assert a + b == b;
    } else {
      assert (a + b)[1..] == a[1..] + b;
      TallyAdd(a[1..], b, k);
    }
  }

  lemma TallyOne(t: Ticket, k: Key)
    ensures Tally([t], k) == Matches(t, k)
  {
    assert [t][1..] == [];
  }

  lemma TallyWithout(ts: seq<Ticket>, i: nat, k: Key)
    requires i < |ts|
    ensures Tally(ts, k) == Tally(Without(ts, i), k) + Matches(ts[i], k)
  {
    assert ts == ts[..i] + ([ts[i]] + ts[i + 1..]);
    TallyAdd(ts[..i], [ts[i]] + ts[i + 1..], k);
    TallyAdd([ts[i]], ts[i + 1..], k);
    TallyOne(ts[i], k);
    TallyAdd(ts[..i], ts[i + 1..], k);
  }

  lemma {:induction false} TallyNone(ts: seq<Ticket>, k: Key)
    requires forall i :: 0 <= i < |ts| ==> Matches(ts[i], k) == 0
    ensures Tally(ts, k) == 0
  {
    if ts != [] { TallyNone(ts[1..], k); }
  }

  lemma TallyZero(ts: seq<Ticket>, k: Key, i: nat)
    requires Tally(ts, k) == 0 && i < |ts|
    ensures Matches(ts[i], k) == 0
  {
    TallyWithout(ts, i, k);
  }

  // ----- the invariant

  /** Each buffer is counted once for every request using it, and once more if it is the read buffer. */
  predicate Owned(st: Session)
  {
    forall b: nat :: b < |st.bufs| ==> Owners(st, b)
  }

  predicate Owners(st: Session, b: nat)
    requires b < |st.bufs|
  {
    st.bufs[b].strong == One(b == st.cur) + Tally(st.pending, ByBuf(b)) + Tally(st.held, ByBuf(b))
  }

  predicate Shows(st: Session, t: Ticket)
  {
    && (t.body.ReqWrite? <==> t.buf.Some?)
    && (t.buf.Some? ==> InBuffer(st.bufs, t.buf.value, t.body.dataOffset, t.body.size))
    && t.message < |st.past.made|
    && View(st, t) in st.past.made[t.message]
  }

  /** A request shows what its own message said, whatever was read since. */
  predicate Authentic(st: Session)
  {
    && (forall i :: 0 <= i < |st.pending| ==> Shows(st, st.pending[i]))
    && (forall i :: 0 <= i < |st.held| ==> Shows(st, st.held[i]))
  }

  function Joined(made: seq<seq<Request>>): seq<Request>
  {
    if made == [] then [] else Joined(made[..|made| - 1]) + made[|made| - 1]
  }

  /** What was yielded and what waits is what was made of the messages, in order. */
  predicate Complete(st: Session)
  {
    st.past.yielded + Views(st, st.pending) == Joined(st.past.made)
  }

  /** And that is what they decode to. */
  predicate Decoding(ops: Ops, st: Session)
  {
    && |st.past.made| == |st.past.accepted|
    && forall m :: 0 <= m < |st.past.made| ==> st.past.made[m] == Decode(ops, st.past.accepted[m]).requests
  }

  /** Nothing comes before the INIT reply, of which there is at most one; nothing after the end. */
  predicate Gated(st: Session)
  {
    && |st.past.inits| == One(st.initDone)
    && (!st.initDone ==> st.past.accepted == [] && st.past.yielded == [] && st.pending == [] && st.held == [])
    && (st.finished ==> st.pending == [])
    && (st.watcherDone ==> st.finished)
  }

  predicate Inv(env: Env, st: Session)
  {
    Sized(st) && Owned(st) && Authentic(st) && Complete(st) && Decoding(env.ops, st) && Gated(st)
  }

  lemma FreshInv(env: Env)
    ensures Inv(env, Fresh())
  {
    var st := Fresh();
    forall b: nat | b < |st.bufs| ensures Owners(st, b) {
    }
  }

  // ----- what views depend on

  /** The contents of the buffers in use are the same in both states. */
  predicate SameData(st: Session, st': Session)
  {
    |st.bufs| <= |st'.bufs| && forall b :: 0 <= b < |st.bufs| ==> st'.bufs[b].data == st.bufs[b].data
  }

  lemma {:induction false} SameViews(st: Session, st': Session, ts: seq<Ticket>)
    requires forall i :: 0 <= i < |ts| ==> View(st', ts[i]) == View(st, ts[i])
    ensures Views(st', ts) == Views(st, ts)
  {
    if ts != [] { SameViews(st, st', ts[1..]); }
  }

  lemma {:induction false} ViewsAdd(st: Session, a: seq<Ticket>, b: seq<Ticket>)
    ensures Views(st, a + b) == Views(st, a) + Views(st, b)
  {
    if a == [] {
      assert a + b == b;
    } else {
      assert (a + b)[1..] == a[1..] + b;
      ViewsAdd(st, a[1..], b);
    }
  }

  lemma StillShows(st: Session, st': Session, t: Ticket)
    requires Shows(st, t)
    requires t.buf.Some? ==> t.buf.value < |st'.bufs| && st'.bufs[t.buf.value].data == st.bufs[t.buf.value].data
    requires st.past.made <= st'.past.made
    ensures Shows(st', t) && View(st', t) == View(st, t)
  {
  }

  // ----- the steps of a poll

  lemma PopShows(st: Session)
    requires Authentic(st) && st.pending != []
    ensures Authentic(Pop(st))
    ensures forall i :: 0 <= i < |st.pending| ==> View(Pop(st), st.pending[i]) == View(st, st.pending[i])
  {
    var st', t := Pop(st), st.pending[0];
    forall i | 0 <= i < |st'.pending| ensures Shows(st', st'.pending[i]) {
      assert Shows(st, st.pending[i + 1]);
    }
    forall i | 0 <= i < |st'.held| ensures Shows(st', st'.held[i]) {
      assert Shows(st, if i < |st.held| then st.held[i] else t);
    }
  }

  lemma MoveOver(a: seq<Request>, r: Request, b: seq<Request>)
    ensures a + ([r] + b) == (a + [r]) + b
  {
  }

  lemma PopCompletes(st: Session)
    requires st.pending != [] && Complete(st)
    requires forall i :: 0 <= i < |st.pending| ==> View(Pop(st), st.pending[i]) == View(st, st.pending[i])
    ensures Complete(Pop(st))
  {
    SameViews(st, Pop(st), st.pending[1..]);
    MoveOver(st.past.yielded, View(st, st.pending[0]), Views(st, st.pending[1..]));
  }

  lemma PopKeeps(env: Env, st: Session)
    requires Inv(env, st) && st.pending != []
    ensures Inv(env, Pop(st))
  {
    var st', t := Pop(st), st.pending[0];
    forall b: nat | b < |st'.bufs| ensures Owners(st', b) {
      assert Owners(st, b);
      TallyAdd(st.held, [t], ByBuf(b));
      TallyOne(t, ByBuf(b));
    }
    PopShows(st);
    PopCompletes(st);
  }

  /** Keeping the requests, the history and all buffer contents keeps what is shown. */
  lemma SameRequests(st: Session, st': Session)
    requires Authentic(st) && Complete(st)
    requires st'.pending == st.pending && st'.held == st.held
    requires st'.past.made == st.past.made && st'.past.yielded == st.past.yielded
    requires SameData(st, st')
    ensures Authentic(st') && Complete(st')
  {
    forall i | 0 <= i < |st.pending|
      ensures Shows(st', st.pending[i]) && View(st', st.pending[i]) == View(st, st.pending[i])
    {
      StillShows(st, st', st.pending[i]);
    }
    forall i | 0 <= i < |st.held| ensures Shows(st', st.held[i]) {
      StillShows(st, st', st.held[i]);
    }
    SameViews(st, st', st.pending);
  }

  lemma NobodyHoldsNew(st: Session, b: nat)
    requires Authentic(st) && b >= |st.bufs|
    ensures Tally(st.pending, ByBuf(b)) == 0 && Tally(st.held, ByBuf(b)) == 0
  {
    forall i | 0 <= i < |st.pending| ensures Matches(st.pending[i], ByBuf(b)) == 0 {
      assert Shows(st, st.pending[i]);
    }
    forall i | 0 <= i < |st.held| ensures Matches(st.held[i], ByBuf(b)) == 0 {
      assert Shows(st, st.held[i]);
    }
    TallyNone(st.pending, ByBuf(b));
    TallyNone(st.held, ByBuf(b));
  }

  /** After this nobody but the session itself has the read buffer. */
  lemma RefreshKeeps(env: Env, st: Session)
    requires Inv(env, st)
    ensures Inv(env, Refresh(st)) && Refresh(st).bufs[Refresh(st).cur].strong == 1
  {
    RefreshOwned(env, st);
    if st.bufs[st.cur].strong > 1 { SameRequests(st, Refresh(st)); }
  }

  lemma RefreshOwned(env: Env, st: Session)
    requires Inv(env, st)
    ensures Owned(Refresh(st)) && Refresh(st).bufs[Refresh(st).cur].strong == 1
  {
    var st' := Refresh(st);
    assert Owners(st, st.cur);
    if st.bufs[st.cur].strong > 1 {
      NobodyHoldsNew(st, |st.bufs|);
      forall b: nat | b < |st'.bufs| ensures Owners(st', b) {
        if b < |st.bufs| { assert Owners(st, b); }
      }
    }
  }

  lemma NobodyHoldsCurrent(st: Session, t: Ticket)
    requires Sized(st) && Owned(st) && st.bufs[st.cur].strong == 1 && (t in st.held || t in st.pending)
    ensures t.buf != Some(st.cur)
  {
    assert Owners(st, st.cur);
    if t in st.held {
      var i :| 0 <= i < |st.held| && st.held[i] == t;
      TallyZero(st.held, ByBuf(st.cur), i);
    } else {
      var i :| 0 <= i < |st.pending| && st.pending[i] == t;
      TallyZero(st.pending, ByBuf(st.cur), i);
    }
  }

  /** So reading into it changes nothing anybody sees. */
  lemma FillKeeps(env: Env, st: Session, bytes: seq<byte>)
    requires Inv(env, st) && st.bufs[st.cur].strong == 1 && |bytes| <= READ_BUF_SIZE && st.pending == []
    ensures Inv(env, Fill(st, bytes)) && Read(Fill(st, bytes), |bytes|) == bytes
  {
    var st' := Fill(st, bytes);
    forall b: nat | b < |st'.bufs| ensures Owners(st', b) {
      assert Owners(st, b);
    }
    forall i | 0 <= i < |st.held| ensures Shows(st', st.held[i]) {
      NobodyHoldsCurrent(st, st.held[i]);
      StillShows(st, st', st.held[i]);
    }
    assert Views(st', []) == Views(st, []) == [];
  }

  // ----- a message

  /** A stored request shows what was decoded. */
  lemma StoredShows(st: Session, r: Request, msg: seq<byte>, m: nat)
    requires Sized(st) && SaneRequest(r, msg) && |msg| <= READ_BUF_SIZE && Read(st, |msg|) == msg
    ensures var t := Store(r, st.cur, m);
            && View(st, t) == r && (t.body.ReqWrite? <==> t.buf.Some?)
            && (t.buf.Some? ==> InBuffer(st.bufs, t.buf.value, t.body.dataOffset, t.body.size))
  {
    if r.body.ReqWrite? {
      InPrefix(st.bufs[st.cur].data, |msg|, r.body.dataOffset, r.body.dataOffset + r.body.size);
    }
  }

  lemma InPrefix(data: seq<byte>, n: nat, lo: nat, hi: nat)
    requires lo <= hi <= n <= |data|
    ensures data[..n][lo..hi] == data[lo..hi]
  {
  }

  lemma {:induction false} StoredView(st: Session, rs: seq<Request>, msg: seq<byte>, m: nat)
    requires Sized(st) && |msg| <= READ_BUF_SIZE && Read(st, |msg|) == msg
    requires forall i :: 0 <= i < |rs| ==> SaneRequest(rs[i], msg)
    ensures Views(st, Tickets(rs, st.cur, m)) == rs
  {
    if rs != [] {
      StoredShows(st, rs[0], msg, m);
      StoredView(st, rs[1..], msg, m);
      assert Tickets(rs, st.cur, m)[1..] == Tickets(rs[1..], st.cur, m);
      assert rs == [rs[0]] + rs[1..];
    }
  }

  lemma {:induction false} TicketsUseOne(rs: seq<Request>, cur: nat, m: nat, b: nat)
    requires b != cur
    ensures Tally(Tickets(rs, cur, m), ByBuf(b)) == 0
  {
    TallyNone(Tickets(rs, cur, m), ByBuf(b));
  }

  lemma HandleKeepsOwned(oracle: Oracle, st: Session, msg: seq<byte>, d: Decoded)
    requires Sized(st) && Owned(st) && st.pending == []
    ensures Owned(Handle(oracle, st, msg, d).0)
  {
    var st' := Handle(oracle, st, msg, d).0;
    var ts := Tickets(d.requests, st.cur, |st.past.accepted|);
    assert st'.pending == ts;
    forall b: nat | b < |st'.bufs| ensures Owners(st', b) {
      assert Owners(st, b);
      if b != st.cur { TicketsUseOne(d.requests, st.cur, |st.past.accepted|, b); }
    }
  }

  lemma HandleShows(oracle: Oracle, st: Session, msg: seq<byte>, d: Decoded)
    requires Sized(st) && Authentic(st) && st.pending == [] && |st.past.made| == |st.past.accepted|
    requires |msg| <= READ_BUF_SIZE && Read(st, |msg|) == msg && Sane(d, msg)
    ensures Authentic(Handle(oracle, st, msg, d).0)
  {
    var st' := Handle(oracle, st, msg, d).0;
    var m := |st.past.accepted|;
    assert st'.pending == Tickets(d.requests, st.cur, m);
    assert Read(st', |msg|) == msg;
    NewOnesShow(st', d.requests, msg, m);
    HeldStillShow(oracle, st, msg, d);
  }

  lemma NewOnesShow(st: Session, rs: seq<Request>, msg: seq<byte>, m: nat)
    requires Sized(st) && st.pending == Tickets(rs, st.cur, m) && m < |st.past.made| && st.past.made[m] == rs
    requires |msg| <= READ_BUF_SIZE && Read(st, |msg|) == msg
    requires forall i :: 0 <= i < |rs| ==> SaneRequest(rs[i], msg)
    ensures forall i :: 0 <= i < |st.pending| ==> Shows(st, st.pending[i])
  {
    forall i | 0 <= i < |st.pending| ensures Shows(st, st.pending[i]) {
      StoredShows(st, rs[i], msg, m);
    }
  }

  lemma HeldStillShow(oracle: Oracle, st: Session, msg: seq<byte>, d: Decoded)
    requires Sized(st) && Authentic(st) && |st.past.made| == |st.past.accepted|
    ensures var st' := Handle(oracle, st, msg, d).0;
            st'.held == st.held && forall i :: 0 <= i < |st.held| ==> Shows(st', st.held[i])
  {
    var st' := Handle(oracle, st, msg, d).0;
    forall i | 0 <= i < |st.held| ensures Shows(st', st.held[i]) {
      StillShows(st, st', st.held[i]);
    }
  }

  lemma HandleCompletes(oracle: Oracle, st: Session, msg: seq<byte>, d: Decoded)
    requires Sized(st) && Complete(st) && st.pending == []
    requires |msg| <= READ_BUF_SIZE && Read(st, |msg|) == msg && Sane(d, msg)
    ensures Complete(Handle(oracle, st, msg, d).0)
  {
    var st' := Handle(oracle, st, msg, d).0;
    HandleViews(oracle, st, msg, d);
    CompleteLater(st.past.yielded, st.past.made, d.requests);
    assert Views(st, st.pending) == [];
    assert st'.past.yielded == st.past.yielded && st'.past.made == st.past.made + [d.requests];
  }

  lemma HandleViews(oracle: Oracle, st: Session, msg: seq<byte>, d: Decoded)
    requires Sized(st) && st.pending == []
    requires |msg| <= READ_BUF_SIZE && Read(st, |msg|) == msg && Sane(d, msg)
    ensures Views(Handle(oracle, st, msg, d).0, Handle(oracle, st, msg, d).0.pending) == d.requests
  {
    var st' := Handle(oracle, st, msg, d).0;
    assert Read(st', |msg|) == msg;
    StoredView(st', d.requests, msg, |st.past.accepted|);
    assert st'.pending == Tickets(d.requests, st.cur, |st.past.accepted|);
  }

  lemma CompleteLater(yielded: seq<Request>, made: seq<seq<Request>>, rs: seq<Request>)
    ensures yielded + [] == Joined(made) ==> yielded + rs == Joined(made + [rs])
  {
    assert (made + [rs])[..|made|] == made;
    assert yielded + [] == yielded;
  }

  lemma HandleDecodes(ops: Ops, oracle: Oracle, st: Session, msg: seq<byte>, d: Decoded)
    requires Sized(st) && Decoding(ops, st) && d == Decode(ops, msg)
    ensures Decoding(ops, Handle(oracle, st, msg, d).0)
  {
  }

  lemma HandleGated(oracle: Oracle, st: Session, msg: seq<byte>, d: Decoded)
    requires Sized(st) && Gated(st) && st.pending == [] && st.initDone && !st.finished && Sane(d, msg)
    ensures Gated(Handle(oracle, st, msg, d).0)
  {
  }

  lemma HandleKeeps(env: Env, st: Session, msg: seq<byte>, d: Decoded)
    requires Inv(env, st) && st.pending == [] && st.initDone && !st.finished
    requires |msg| <= READ_BUF_SIZE && Read(st, |msg|) == msg && d == Decode(env.ops, msg)
    ensures Inv(env, Handle(env.oracle, st, msg, d).0)
  {
    EveryMessageIsSane(env.ops, msg);
    HandleKeepsOwned(env.oracle, st, msg, d);
    HandleShows(env.oracle, st, msg, d);
    HandleCompletes(env.oracle, st, msg, d);
    HandleDecodes(env.ops, env.oracle, st, msg, d);
    HandleGated(env.oracle, st, msg, d);
  }

  lemma GreetKeeps(env: Env, st: Session, unique: u64, reply: Option<seq<byte>>)
    requires Inv(env, st) && !st.initDone
    ensures Inv(env, Greet(env.oracle, st, unique, reply).0)
  {
    var st' := Greet(env.oracle, st, unique, reply).0;
    SameRequests(st, st');
    forall b: nat | b < |st'.bufs| ensures Owners(st', b) {
      assert Owners(st, b);
    }
  }

  lemma HandleInitKeeps(env: Env, st: Session, msg: seq<byte>)
    requires Inv(env, st) && !st.initDone
    ensures Inv(env, HandleInit(env, st, msg).0)
  {
    if ReadHeader(msg).Some? {
      var h := ReadHeader(msg).value;
      GreetKeeps(env, st, h.unique, InitReply(env, h, msg[IN_HEADER_SIZE..]));
    }
  }

  lemma ReceiveKeeps(env: Env, st: Session, bytes: seq<byte>)
    requires Inv(env, st) && st.pending == [] && !st.finished && |bytes| <= READ_BUF_SIZE
    ensures Inv(env, Receive(env, st, bytes).0)
  {
    RefreshKeeps(env, st);
    FillKeeps(env, Refresh(st), bytes);
    var filled := Fill(Refresh(st), bytes);
    if st.initDone {
      HandleKeeps(env, filled, bytes, Decode(env.ops, bytes));
    } else {
      HandleInitKeeps(env, filled, bytes);
    }
  }
}
