/** The session of src/session.rs as a value: what polling it and answering its requests does. */
module Streams {
  import opened Bytes
  import opened Protocol
  import opened Messages
  import opened DecodeFacts
  import opened Negotiation
  import opened Replies
  import Opcodes

  /** A read buffer, and how many `Arc`s point to it. */
  datatype Buf = Buf(data: seq<byte>, strong: nat)

  /** A request with its guard. A write names the buffer its data is in, so `body.data` is left empty.
      `message` is the number of the message it came from. */
  datatype Ticket = Ticket(unique: u64, body: Body, buf: Option<nat>, message: nat)

  /** What the session runs in: the operations enabled, the page size, and how writes fare. */
  datatype Env = Env(ops: Ops, pageSize: int, oracle: Oracle)

  /** What happened so far: the messages read after initialisation and the requests made of each, the
      requests yielded (with the data they showed then), and the successful INIT replies. Of all messages
      the ids: `ids`; of those that take no answer: `quiet`; of those that got none because `handle_init`
      refused them or the reply was too long to send: `lost`. */
  datatype History = History(accepted: seq<seq<byte>>, made: seq<seq<Request>>, yielded: seq<Request>,
                             ids: seq<u64>, quiet: seq<u64>, lost: seq<u64>, inits: seq<seq<byte>>)

  /** `held` are the requests the client has. */
  datatype Session = Session(bufs: seq<Buf>, cur: nat, pending: seq<Ticket>, held: seq<Ticket>, initDone: bool,
                             finished: bool, watcherDone: bool, log: seq<Attempt>, past: History)

  /** What the outside world does in one turn of the loop: the watcher has ended; the device is not
      ready, or fails; a read finds nothing after all, fails, ends the stream, or returns a message. */
  datatype Input =
    | WatcherReady
    | NotReady
    | ReadinessFails
    | WouldBlock
    | ReadFails(errno: nat)
    | Eof
    | Message(bytes: seq<byte>)

  datatype Polled = Pending | Yield(request: Request) | Ended | Failed

  function Fresh(): Session
  {
    Session([Buf(Zeros(READ_BUF_SIZE), 1)], 0, [], [], false, false, false, [], History([], [], [], [], [], [], []))
  }

  // ----- requests and their buffers

  /** What the client sees of a request: a write shows its part of the buffer as it is now. */
  function View(st: Session, t: Ticket): Request
  {
    Request(t.unique, Shown(st.bufs, t.body, t.buf))
  }

  function Shown(bufs: seq<Buf>, body: Body, buf: Option<nat>): Body
  {
    if body.ReqWrite? && buf.Some? && InBuffer(bufs, buf.value, body.dataOffset, body.size) then
      body.(data := bufs[buf.value].data[body.dataOffset..body.dataOffset + body.size])
    else body
  }

  predicate InBuffer(bufs: seq<Buf>, b: nat, offset: nat, size: nat)
  {
    b < |bufs| && offset + size <= |bufs[b].data|
  }

  function Views(st: Session, ts: seq<Ticket>): (rs: seq<Request>)
    ensures |rs| == |ts| && forall k :: 0 <= k < |ts| ==> rs[k] == View(st, ts[k])
  {
    if ts == [] then [] else [View(st, ts[0])] + Views(st, ts[1..])
  }

  function Store(r: Request, b: nat, message: nat): Ticket
  {
    if r.body.ReqWrite? then Ticket(r.unique, r.body.(data := []), Some(b), message)
    else Ticket(r.unique, r.body, None, message)
  }

  function Tickets(rs: seq<Request>, b: nat, message: nat): (ts: seq<Ticket>)
    ensures |ts| == |rs| && forall k :: 0 <= k < |rs| ==> ts[k] == Store(rs[k], b, message)
  {
    if rs == [] then [] else [Store(rs[0], b, message)] + Tickets(rs[1..], b, message)
  }

  /** What to count among requests: those of an id, or those using a buffer. */
  datatype Key = ById(unique: u64) | ByBuf(buf: nat)

  function Matches(t: Ticket, k: Key): nat
  {
    match k
    case ById(unique) => if t.unique == unique then 1 else 0
    case ByBuf(b) => if t.buf == Some(b) then 1 else 0
  }

  function Tally(ts: seq<Ticket>, k: Key): nat
  {
    if ts == [] then 0 else Matches(ts[0], k) + Tally(ts[1..], k)
  }

  // ----- reading

  /** All buffers have the size they were made with. */
  predicate Sized(st: Session)
  {
    st.cur < |st.bufs| && forall b :: 0 <= b < |st.bufs| ==> |st.bufs[b].data| == READ_BUF_SIZE
  }

  /** A buffer somebody else still holds is replaced by a new one. */
  function Refresh(st: Session): (r: Session)
    requires Sized(st)
    ensures Sized(r)
  {
    var buf := st.bufs[st.cur];
    if buf.strong <= 1 then st
    else st.(bufs := st.bufs[st.cur := buf.(strong := buf.strong - 1)] + [Buf(Zeros(READ_BUF_SIZE), 1)],
             cur := |st.bufs|)
  }

  function Fill(st: Session, bytes: seq<byte>): (r: Session)
    requires Sized(st) && |bytes| <= READ_BUF_SIZE
    ensures Sized(r)
  {
    var buf := st.bufs[st.cur];
    st.(bufs := st.bufs[st.cur := buf.(data := bytes + buf.data[|bytes|..])])
  }

  function Read(st: Session, n: nat): seq<byte>
    requires Sized(st) && n <= READ_BUF_SIZE
  {
    st.bufs[st.cur].data[..n]
  }

  // ----- one message

  function Noted(ids: seq<u64>, msg: seq<byte>): seq<u64>
  {
    match ReadHeader(msg) case None => ids case Some(h) => ids + [h.unique]
  }

  function Held(bufs: seq<Buf>, b: nat, more: nat): (r: seq<Buf>)
    requires b < |bufs|
    ensures |r| == |bufs| && forall k :: 0 <= k < |r| ==> r[k].data == bufs[k].data
  {
    bufs[b := bufs[b].(strong := bufs[b].strong + more)]
  }

  /** The requests of a message join the queue, a guard left armed answers, and DESTROY ends the stream. */
  function Deliver(oracle: Oracle, st: Session, unique: u64, d: Decoded, message: nat): (r: Session)
    requires Sized(st)
    ensures Sized(r) && r.past == st.past
  {
    var ts := Tickets(d.requests, st.cur, message);
    st.(bufs := Held(st.bufs, st.cur, Tally(ts, ByBuf(st.cur))), pending := st.pending + ts,
        finished := st.finished || d.finish,
        log := if d.rejected then st.log + Farewell(oracle, |st.log|, unique) else st.log)
  }

  function IdOf(msg: seq<byte>): u64
  {
    match ReadHeader(msg) case None => 0 case Some(h) => h.unique
  }

  function WithMessage(p: History, msg: seq<byte>, d: Decoded): History
  {
    p.(accepted := p.accepted + [msg], made := p.made + [d.requests], ids := Noted(p.ids, msg),
       quiet := if Silently(d) then Noted(p.quiet, msg) else p.quiet)
  }

  /** A message after initialisation, and what it decodes to. */
  function Handle(oracle: Oracle, st: Session, msg: seq<byte>, d: Decoded): (r: (Session, bool))
    requires Sized(st)
    ensures Sized(r.0)
  {
    (Deliver(oracle, st, IdOf(msg), d, |st.past.accepted|).(past := WithMessage(st.past, msg, d)), !d.failed)
  }

  /** What `handle_init` answers, or None if it refuses the message. */
  function InitReply(env: Env, h: Header, body: seq<byte>): Option<seq<byte>>
  {
    if Opcodes.FromU32(h.opcode) != Some(Opcodes.Init) then None
    else match ReadBody(INIT_IN, body)
      case None => None
      case Some(f) =>
        InitFields();
        if f[0] != FUSE_KERNEL_VERSION then None
        else Some(InitOutBytes(NegotiateInit(InitIn(Wrap32(f[0]), Wrap32(f[1]), Wrap32(f[2]), Wrap32(f[3]) as bv32),
                                             env.ops, env.pageSize)))
  }

  lemma InitFields()
    ensures Fields(INIT_IN) == 16
  {
    var words := U32(U32(U32(U32(U32(U32(U32(U32(End))))))));
    assert Fields(words) == 8;
    assert Fields(U32(U32(U32(U32(words))))) == 12;
  }

  /** A message before initialisation, and the answer to it, if any. */
  function Greet(oracle: Oracle, st: Session, unique: u64, reply: Option<seq<byte>>): (r: (Session, bool))
    ensures r.0.bufs == st.bufs && r.0.cur == st.cur
  {
    var p := st.past.(ids := st.past.ids + [unique]);
    match reply
    case None => (st.(past := p.(lost := p.lost + [unique])), false)
    case Some(data) =>
      var failure := oracle(|st.log|);
      var st1 := st.(log := st.log + [Attempt(unique, 0, data, failure)], past := p);
      if failure.Some? then (st1, false)
      else (st1.(initDone := true, past := p.(inits := p.inits + [data])), true)
  }

  function HandleInit(env: Env, st: Session, msg: seq<byte>): (r: (Session, bool))
    ensures r.0.bufs == st.bufs && r.0.cur == st.cur
  {
    match ReadHeader(msg)
    case None => (st, false)
    case Some(h) => Greet(env.oracle, st, h.unique, InitReply(env, h, msg[IN_HEADER_SIZE..]))
  }

  /** `process_request` on the first `n` bytes of the buffer. */
  function Process(env: Env, st: Session, n: nat): (r: (Session, bool))
    requires Sized(st) && n <= READ_BUF_SIZE
    ensures Sized(r.0)
  {
    if st.initDone then Handle(env.oracle, st, Read(st, n), Decode(env.ops, Read(st, n)))
    else HandleInit(env, st, Read(st, n))
  }

  // ----- polling

  predicate GoodInput(i: Input)
  {
    i.Message? ==> 0 < |i.bytes| <= READ_BUF_SIZE
  }

  predicate GoodInputs(inputs: seq<Input>)
  {
    forall k :: 0 <= k < |inputs| ==> GoodInput(inputs[k])
  }

  function Stop(st: Session): Session { st.(finished := true) }

  function Pop(st: Session): Session
    requires st.pending != []
  {
    var t := st.pending[0];
    st.(pending := st.pending[1..], held := st.held + [t],
        past := st.past.(yielded := st.past.yielded + [View(st, t)]))
  }

  /** One turn that reads a message. */
  function Receive(env: Env, st: Session, bytes: seq<byte>): (r: (Session, bool))
    requires Sized(st) && |bytes| <= READ_BUF_SIZE
    ensures Sized(r.0)
  {
    Process(env, Fill(Refresh(st), bytes), |bytes|)
  }

  /** One turn of the loop of `poll_next`: the new state, and what it returns if it does. */
  function Turn(env: Env, st: Session, input: Input): (r: (Session, Option<Polled>))
    requires Sized(st) && GoodInput(input)
    ensures Sized(r.0)
  {
    match input
    case WatcherReady => (Stop(st).(watcherDone := true), Some(Ended))
    case NotReady => (st, Some(Pending))
    case ReadinessFails => (st, Some(Failed))
    case _ => AfterRefresh(env, Refresh(st), input)
  }

  /** The `read` of a turn and what it leads to. */
  function AfterRefresh(env: Env, st: Session, input: Input): (r: (Session, Option<Polled>))
    requires Sized(st) && GoodInput(input)
    ensures Sized(r.0)
  {
    match input
    case WouldBlock => (st, None)
    case Eof => (Stop(st), Some(Ended))
    case ReadFails(errno) =>
      if errno == ENODEV || errno == ECONNABORTED then (Stop(st), Some(Ended)) else (st, Some(Failed))
    case Message(bytes) =>
      var (st1, ok) := Process(env, Fill(st, bytes), |bytes|);
      (st1, if ok then None else Some(Failed))
    case _ => (st, None)
  }

  /** `poll_next`: the new state, what it returns, and how many inputs it used. */
  function Poll(env: Env, st: Session, inputs: seq<Input>): (r: (Session, Polled, nat))
    requires Sized(st) && GoodInputs(inputs)
    ensures Sized(r.0) && r.2 <= |inputs|
    decreases |inputs|
  {
    if st.pending != [] then (Pop(st), Yield(View(st, st.pending[0])), 0)
    else if st.finished then (st, Ended, 0)
    else if inputs == [] then (st, Pending, 0)
    else
      assert GoodInput(inputs[0]);
      var (st1, r) := Turn(env, st, inputs[0]);
      if r.Some? then (st1, r.value, 1) else OneMore(Poll(env, st1, inputs[1..]))
  }

  function OneMore(r: (Session, Polled, nat)): (Session, Polled, nat) { (r.0, r.1, r.2 + 1) }

  // ----- answering

  function Without(ts: seq<Ticket>, i: nat): seq<Ticket>
    requires i < |ts|
  {
    ts[..i] + ts[i + 1..]
  }

  function Released(bufs: seq<Buf>, buf: Option<nat>): seq<Buf>
  {
    if buf.Some? && buf.value < |bufs| && bufs[buf.value].strong > 0 then
      bufs[buf.value := bufs[buf.value].(strong := bufs[buf.value].strong - 1)]
    else bufs
  }

  /** The i-th request of the client ends with this plan. */
  function CarryOut(oracle: Oracle, st: Session, i: nat, plan: Plan): Session
    requires i < |st.held|
  {
    var t := st.held[i];
    st.(held := Without(st.held, i), bufs := Released(st.bufs, t.buf),
        log := st.log + Attempts(oracle, |st.log|, t.unique, plan),
        past := if plan.Silent? then st.past.(quiet := st.past.quiet + [t.unique])
                else if Unsendable(plan) then st.past.(lost := st.past.lost + [t.unique])
                else st.past)
  }

  /** The client does `call` to the i-th of its requests, which ends it. */
  function AnswerHeld(env: Env, st: Session, i: nat, call: Call): Session
    requires i < |st.held| && Offers(st.held[i].body, call)
  {
    CarryOut(env.oracle, st, i, PlanOf(st.held[i].body, call))
  }

  // ----- runs

  datatype Event = PollEvent(inputs: seq<Input>) | AnswerEvent(index: nat, call: Call)

  predicate LegalEvent(st: Session, e: Event)
  {
    match e
    case PollEvent(inputs) => GoodInputs(inputs)
    case AnswerEvent(i, call) => i < |st.held| && Offers(st.held[i].body, call)
  }

  function Step(env: Env, st: Session, e: Event): (r: Session)
    requires Sized(st) && LegalEvent(st, e)
    ensures Sized(r)
  {
    match e
    case PollEvent(inputs) => Poll(env, st, inputs).0
    case AnswerEvent(i, call) => AnswerHeld(env, st, i, call)
  }

  predicate LegalRun(env: Env, st: Session, events: seq<Event>)
    requires Sized(st)
    decreases |events|
  {
    events == [] || (LegalEvent(st, events[0]) && LegalRun(env, Step(env, st, events[0]), events[1..]))
  }

  function Run(env: Env, st: Session, events: seq<Event>): (r: Session)
    requires Sized(st) && LegalRun(env, st, events)
    ensures Sized(r)
    decreases |events|
  {
    if events == [] then st else Run(env, Step(env, st, events[0]), events[1..])
  }
}
