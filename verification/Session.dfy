/** The session object of src/session.rs: buffers shared with requests, guards, and the polling loop. */
module SessionObject {
  import opened Bytes
  import opened Protocol
  import opened Messages
  import opened DecodeFacts
  import opened Negotiation
  import opened Replies
  import opened Streams
  import opened StreamInvariants
  import opened SessionRuns
  import Opcodes

  /** An `Arc<Vec<u8>>` of the fixed read size with its count. */
  class Buffer {
    ghost const id: nat
    var data: seq<byte>
    var strong: nat

    constructor (ghost id: nat)
      ensures this.id == id && data == Zeros(READ_BUF_SIZE) && strong == 1
    {
      this.id := id;
      data := Zeros(READ_BUF_SIZE);
      strong := 1;
    }
  }

  /** The task that waits for an error on the device; it must not be polled once it has ended. */
  class Watcher {
    var done: bool

    constructor ()
      ensures !done
    {
      done := false;
    }

    method Poll(ready: bool) returns (r: bool)
      requires !done
      modifies this
      ensures done == r == ready
    {
      done := ready;
      return ready;
    }
  }

  /** A request: its guard, what it asks for, and for writes the buffer with the data. */
  datatype Item = Item(guard: RequestGuard, body: Body, buffer: Option<Buffer>)

  /** What `poll_next` returns: `Polled` with the request itself. */
  datatype PollResult = Ready(item: Item) | Other(polled: Polled)

  ghost function TicketOf(x: Item): Ticket
  {
    Ticket(x.guard.id, x.body, if x.buffer.Some? then Some(x.buffer.value.id) else None, x.guard.message)
  }

  ghost function TicketsOf(xs: seq<Item>): (ts: seq<Ticket>)
    ensures |ts| == |xs| && forall i :: 0 <= i < |xs| ==> ts[i] == TicketOf(xs[i])
  {
    seq(|xs|, i requires 0 <= i < |xs| => TicketOf(xs[i]))
  }

  lemma TicketsOfAdd(a: seq<Item>, b: seq<Item>)
    ensures TicketsOf(a + b) == TicketsOf(a) + TicketsOf(b)
  {
  }

  lemma TicketsOfOne(x: Item)
    ensures TicketsOf([x]) == [TicketOf(x)]
  {
  }

  lemma HeldNone(bufs: seq<Buf>, b: nat)
    requires b < |bufs|
    ensures Held(bufs, b, 0) == bufs
  {
  }

  lemma TicketsOfPush(xs: seq<Item>, x: Item)
    ensures TicketsOf(xs + [x]) == TicketsOf(xs) + [TicketOf(x)]
  {
  }

  ghost function BufsOf(heap: seq<Buffer>): (bufs: seq<Buf>)
    reads heap
    ensures |bufs| == |heap| && forall i :: 0 <= i < |heap| ==> bufs[i] == Buf(heap[i].data, heap[i].strong)
  {
    seq(|heap|, i requires 0 <= i < |heap| reads heap => Buf(heap[i].data, heap[i].strong))
  }

  /** The guard still has its id, and the buffer is one of those made. */
  ghost predicate Armed(x: Item, fd: Fd, heap: seq<Buffer>)
    reads x.guard
  {
    && x.guard.fd == fd && x.guard.unique == x.guard.id
    && (x.buffer.Some? ==> x.buffer.value.id < |heap| && heap[x.buffer.value.id] == x.buffer.value)
  }

  /** No two requests share a guard. */
  ghost predicate Separate(xs: seq<Item>)
  {
    forall i, j :: 0 <= i < j < |xs| ==> xs[i].guard != xs[j].guard
  }

  class Fuse {
    const ops: Ops
    const pageSize: int
    const fd: Fd
    const watcher: Watcher
    var buf: Buffer
    var pending: seq<Item>
    var initDone: bool
    var finished: bool
    /** All buffers ever made, the requests the client has, and what happened so far. */
    ghost var heap: seq<Buffer>
    ghost var held: seq<Item>
    ghost var past: History

    ghost function Env(): Env
    {
      Streams.Env(ops, pageSize, fd.oracle)
    }

    ghost function State(): Session
      reads this, fd, watcher, heap
    {
      Session(BufsOf(heap), buf.id, TicketsOf(pending), TicketsOf(held), initDone, finished, watcher.done, fd.log, past)
    }

    /** Every buffer is where its number says. */
    ghost predicate Indexed()
      reads this
    {
      && (forall i :: 0 <= i < |heap| ==> heap[i].id == i)
      && buf.id < |heap| && heap[buf.id] == buf
    }

    ghost function Guards(): set<RequestGuard>
      reads this
    {
      (set x | x in pending :: x.guard) + (set x | x in held :: x.guard)
    }

    /** What a turn needs of the state. */
    ghost predicate Pollable()
      reads this, fd, watcher, heap
    {
      Sized(State()) && (watcher.done ==> finished)
    }

    /** Every request has an armed guard of its own. */
    ghost predicate Linked()
      reads this, Guards()
    {
      && Indexed()
      && (forall x :: x in pending ==> Armed(x, fd, heap))
      && (forall x :: x in held ==> Armed(x, fd, heap))
      && Separate(pending + held)
    }

    ghost predicate Valid()
      reads this, fd, watcher, heap, Guards()
    {
      Linked() && Inv(Env(), State())
    }

    constructor (ops: Ops, pageSize: int, fd: Fd)
      requires fd.log == []
      ensures Valid() && State() == Fresh() && this.ops == ops && this.pageSize == pageSize && this.fd == fd
      ensures fresh(watcher) && fresh(buf)
    {
      this.ops := ops;
      this.pageSize := pageSize;
      this.fd := fd;
      var b := new Buffer(0);
      watcher := new Watcher();
      buf := b;
      heap := [b];
      pending := [];
      held := [];
      initDone := false;
      finished := false;
      past := History([], [], [], [], [], [], []);
      new;
      assert BufsOf(heap) == [Buf(Zeros(READ_BUF_SIZE), 1)];
      assert State() == Fresh();
      FreshInv(Env());
    }

    method IsTerminated() returns (r: bool)
      ensures r == finished
    {
      return finished;
    }

    /** A buffer somebody else still holds is replaced. */
    method RefreshBuffer()
      requires Linked() && Sized(State())
      modifies this`buf, this`heap, buf`strong
      ensures Linked()
      ensures State() == Refresh(old(State()))
      ensures buf == old(buf) || fresh(buf)
    {
      if buf.strong > 1 {
        assert State().bufs[buf.id] == Buf(buf.data, buf.strong);
        ReleaseBuffer(buf);
        AddBuffer();
      }
    }

    method AddBuffer()
      requires Linked()
      modifies this`buf, this`heap
      ensures Linked() && fresh(buf)
      ensures State() == old(State()).(bufs := old(State()).bufs + [Buf(Zeros(READ_BUF_SIZE), 1)],
                                       cur := |old(State()).bufs|)
    {
      ghost var bufs := BufsOf(heap);
      var b := new Buffer(|heap|);
      heap := heap + [b];
      buf := b;
      assert BufsOf(heap) == bufs + [Buf(Zeros(READ_BUF_SIZE), 1)];
    }

    /** The `read` system call puts the message at the front of the buffer. */
    method ReadInto(bytes: seq<byte>)
      requires Linked() && Sized(State()) && |bytes| <= READ_BUF_SIZE
      modifies buf`data
      ensures Linked()
      ensures State() == Fill(old(State()), bytes)
    {
      ghost var was := State();
      assert was.bufs[buf.id].data == buf.data;
      buf.data := bytes + buf.data[|bytes|..];
      assert BufsOf(heap) == Fill(was, bytes).bufs;
    }

    // ----- requests come and go

    /** One more reference to the read buffer. */
    method ShareBuffer()
      requires Linked() && Sized(State())
      modifies buf`strong
      ensures Linked()
      ensures State() == old(State()).(bufs := Held(old(State()).bufs, old(State()).cur, 1))
    {
      ghost var was := State();
      assert was.bufs[was.cur] == Buf(buf.data, buf.strong);
      buf.strong := buf.strong + 1;
      assert BufsOf(heap) == Held(was.bufs, was.cur, 1);
    }

    /** `push_back` */
    method PushBack(x: Item)
      requires Linked() && Armed(x, fd, heap) && x.guard !in Guards()
      modifies this`pending
      ensures Linked() && pending == old(pending) + [x]
      ensures State() == old(State()).(pending := old(State()).pending + [TicketOf(x)])
    {
      pending := pending + [x];
      TicketsOfPush(old(pending), x);
      SeparateInsert(old(pending), held, x);
    }

    /** A new request waits behind the others; a write shares the read buffer. */
    method Push(guard: RequestGuard, body: Body)
      requires Linked() && Sized(State()) && guard.fd == fd && guard.unique == guard.id && guard !in Guards()
      modifies this`pending, buf`strong
      ensures Linked()
      ensures pending == old(pending) + [ItemFor(guard, body, buf)]
      ensures State() == old(State()).(pending := old(State()).pending + [TicketOf(ItemFor(guard, body, buf))],
                                       bufs := Held(old(State()).bufs, old(State()).cur, One(body.ReqWrite?)))
    {
      HeldNone(BufsOf(heap), buf.id);
      if body.ReqWrite? {
        ShareBuffer();
        PushBack(Item(guard, body.(data := []), Some(buf)));
      } else {
        PushBack(Item(guard, body, None));
      }
    }

    /** `pop_front` hands the oldest request over. */
    method PopFront() returns (x: Item)
      requires Linked() && pending != []
      modifies this`pending, this`held, this`past
      ensures Linked()
      ensures State() == Pop(old(State()))
      ensures x == old(pending)[0] && held == old(held) + [x]
    {
      ghost var was := State();
      x := pending[0];
      assert Armed(x, fd, heap);
      SeparateMove(pending, held);
      TicketsOfAdd(held, [x]);
      TicketsOfOne(x);
      pending := pending[1..];
      held := held + [x];
      past := past.(yielded := past.yielded + [View(was, was.pending[0])]);
      assert TicketsOf(pending) == was.pending[1..];
      assert forall y :: y in pending ==> y in old(pending);
    }

    // ----- messages

    /** What one opcode decoded to: a request for the client, or a guard to drop or to disarm. */
    method Deliver(guard: RequestGuard, d: Decoded)
      requires Linked() && Sized(State()) && guard.fd == fd && guard.unique == guard.id && guard !in Guards()
      requires d.requests == [] || d.requests == [Request(guard.id, d.requests[0].body)]
      requires d.requests != [] ==> !d.rejected
      requires !d.finish
      modifies this`pending, buf`strong, fd, guard
      ensures Linked()
      ensures State() == Streams.Deliver(fd.oracle, old(State()), guard.id, d, guard.message)
    {
      ghost var was := State();
      if d.requests != [] {
        OneDelivered(fd.oracle, was, d, guard, buf);
        Push(guard, d.requests[0].body);
      } else if d.rejected {
        guard.Drop();
        NoneDelivered(was, d, guard.message);
      } else {
        guard.Disarm();
        NoneDelivered(was, d, guard.message);
      }
    }

    /** BATCH_FORGET, whose guard is disarmed already. */
    method PushBatch(body: seq<byte>, ghost message: nat) returns (ok: bool)
      requires Linked() && Sized(State())
      modifies this`pending, buf`strong
      ensures Linked()
      ensures ok == !DecodeBatchForget(ops, body).failed
      ensures State() == Streams.Deliver(fd.oracle, old(State()), 0, DecodeBatchForget(ops, body), message)
    {
      ghost var was := State();
      ok := true;
      if ops.forget {
        var batch := ReadBody(BATCH_FORGET_IN, body);
        if batch.Some? {
          PushRecords(batch.value[0], body, message);
          ForgetsDelivered(was, ops, body, message);
        } else {
          ok := false;
          NoneDelivered(was, DecodeBatchForget(ops, body), message);
        }
      } else {
        NoneDelivered(was, DecodeBatchForget(ops, body), message);
      }
    }

    /** The loop over the records of a batch. */
    method PushRecords(count: nat, body: seq<byte>, ghost message: nat)
      requires Linked() && Sized(State()) && |body| >= 8
      modifies this`pending, buf`strong
      ensures Linked()
      ensures State() == old(State()).(pending :=
                old(State()).pending + Tickets(BatchRecords(count, body[8..]), buf.id, message))
    {
      ghost var was, rs := State(), BatchRecords(count, body[8..]);
      ghost var ts := Tickets(rs, buf.id, message);
      BatchLength(count, body);
      var i := 0;
      assert was.pending + ts[..0] == was.pending;
      while i < count
        invariant 0 <= i <= |rs|
        invariant Linked() && State() == was.(pending := was.pending + ts[..i])
      {
        var offset := 8 + 16 * i;
        if offset + 16 > |body| { break; }
        PushRecord(count, body, i, offset, message);
        TakeOneMore(was.pending, ts, i);
        i := i + 1;
      }
      assert ts[..i] == ts;
    }

    method PushRecord(ghost count: nat, body: seq<byte>, ghost i: nat, offset: nat, ghost message: nat)
      requires Linked() && Sized(State()) && offset == 8 + 16 * i && offset + 16 <= |body|
      requires i < |BatchRecords(count, body[8..])|
      modifies this`pending, buf`strong
      ensures Linked()
      ensures State() == old(State()).(pending := old(State()).pending
                                                  + [Store(BatchRecords(count, body[8..])[i], buf.id, message)])
    {
      NextRecord(count, body, i);
      var entry := ReadBody(FORGET_ONE, body[offset..]).value;
      PushForget(Wrap64(entry[0]), Wrap64(entry[1]), message);
    }

    method PushForget(inode: u64, count: u64, ghost message: nat)
      requires Linked() && Sized(State())
      modifies this`pending, buf`strong
      ensures Linked()
      ensures State() == old(State()).(pending := old(State()).pending
                                                  + [Store(Request(0, ReqForget(inode, count)), buf.id, message)])
    {
      HeldNothing(State().bufs, buf.id);
      var guard := new RequestGuard(0, fd, message);
      Push(guard, ReqForget(inode, count));
    }

    /** `handle_init`. */
    method HandleInit(h: Header, body: seq<byte>) returns (ok: bool)
      requires Linked()
      modifies this`initDone, this`past, fd
      ensures Linked()
      ensures (State(), ok) == Greet(fd.oracle, old(State()), h.unique, InitReply(Env(), h, body))
    {
      var reply := CheckInit(h, body);
      ok := AnswerInit(h.unique, reply);
    }

    /** The checks of `handle_init`, and the answer if they pass. */
    method CheckInit(h: Header, body: seq<byte>) returns (reply: Option<seq<byte>>)
      ensures reply == InitReply(Env(), h, body) && (reply.Some? ==> |reply.value| == 64)
    {
      if Opcodes.FromU32(h.opcode) != Some(Opcodes.Init) { return None; }
      var init := ReadBody(INIT_IN, body);
      if init.None? { return None; }
      InitFields();
      var f := init.value;
      if f[0] != FUSE_KERNEL_VERSION { return None; }
      var initIn := InitIn(Wrap32(f[0]), Wrap32(f[1]), Wrap32(f[2]), Wrap32(f[3]) as bv32);
      return Some(InitOutBytes(NegotiateInit(initIn, ops, pageSize)));
    }

    /** The reply, which is the initialisation if it was sent. */
    method AnswerInit(unique: u64, reply: Option<seq<byte>>) returns (ok: bool)
      requires Linked() && (reply.Some? ==> |reply.value| == 64)
      modifies this`initDone, this`past, fd
      ensures Linked()
      ensures (State(), ok) == Greet(fd.oracle, old(State()), unique, reply)
    {
      past := past.(ids := past.ids + [unique]);
      if reply.None? {
        past := past.(lost := past.lost + [unique]);
        return false;
      }
      var sent := SendReply(fd, unique, 0, reply.value);
      if sent.Err? { return false; }
      initDone := true;
      past := past.(inits := past.inits + [reply.value]);
      return true;
    }

    /** A message after initialisation: its guard is made, and its opcode decides. */
    method HandleMessage(h: Header, msg: seq<byte>) returns (ok: bool)
      requires Linked() && Sized(State()) && ReadHeader(msg) == Some(h)
      modifies this`pending, this`finished, this`past, buf`strong, fd
      ensures Linked()
      ensures (State(), ok) == Handle(fd.oracle, old(State()), msg, Decode(ops, msg))
    {
      ghost var was := State();
      var guard := new RequestGuard(h.unique, fd, |past.accepted|);
      assert Decode(ops, msg) == DecodeBody(ops, h, msg[IN_HEADER_SIZE..]) && IdOf(msg) == h.unique;
      ok := HandleOpcode(guard, h, msg[IN_HEADER_SIZE..]);
      Note(was, msg, Decode(ops, msg));
    }

    /** The message goes into the books. */
    ghost method Note(was: Session, msg: seq<byte>, d: Decoded)
      requires Linked() && Sized(was)
      requires State() == Streams.Deliver(fd.oracle, was, IdOf(msg), d, |was.past.accepted|)
      modifies this`past
      ensures Linked()
      ensures State() == Handle(fd.oracle, was, msg, d).0
    {
      past := WithMessage(past, msg, d);
    }

    method HandleOpcode(guard: RequestGuard, h: Header, body: seq<byte>) returns (ok: bool)
      requires Linked() && Sized(State()) && guard.fd == fd && guard.unique == guard.id && guard !in Guards()
      requires guard.id == h.unique
      modifies this`pending, this`finished, buf`strong, fd, guard
      ensures Linked()
      ensures var d := DecodeBody(ops, h, body);
              ok == !d.failed && State() == Streams.Deliver(fd.oracle, old(State()), guard.id, d, guard.message)
    {
      var op := Opcodes.FromU32(h.opcode);
      if op.None? {
        Deliver(guard, Reject);
        ok := true;
      } else {
        ok := HandleOp(guard, op.value, h.node, body);
      }
    }

    method HandleOp(guard: RequestGuard, op: Opcodes.Opcode, node: u64, body: seq<byte>) returns (ok: bool)
      requires Linked() && Sized(State()) && guard.fd == fd && guard.unique == guard.id && guard !in Guards()
      modifies this`pending, this`finished, buf`strong, fd, guard
      ensures Linked()
      ensures var d := DecodeOp(ops, op, guard.id, node, body);
              ok == !d.failed && State() == Streams.Deliver(fd.oracle, old(State()), guard.id, d, guard.message)
    {
      if op == Opcodes.Destroy {
        EndStream(guard);
        ok := true;
      } else if op == Opcodes.BatchForget {
        ok := HandleBatch(guard, body);
      } else {
        ok := HandleOther(guard, op, node, body);
      }
    }

    method EndStream(guard: RequestGuard)
      requires Linked() && Sized(State()) && guard.fd == fd && guard.unique == guard.id && guard !in Guards()
      modifies this`finished, guard
      ensures Linked()
      ensures State() == Streams.Deliver(fd.oracle, old(State()), guard.id, Messages.Finish, guard.message)
    {
      FinishDelivered(fd.oracle, State(), guard.id, guard.message);
      guard.Disarm();
      finished := true;
    }

    method HandleBatch(guard: RequestGuard, body: seq<byte>) returns (ok: bool)
      requires Linked() && Sized(State()) && guard.fd == fd && guard.unique == guard.id && guard !in Guards()
      modifies this`pending, buf`strong, guard
      ensures Linked()
      ensures var d := DecodeBatchForget(ops, body);
              ok == !d.failed && State() == Streams.Deliver(fd.oracle, old(State()), guard.id, d, guard.message)
    {
      BatchShape(ops, body);
      SilentDelivered(fd.oracle, State(), guard.id, DecodeBatchForget(ops, body), guard.message);
      guard.Disarm();
      ok := PushBatch(body, guard.message);
    }

    /** All opcodes but DESTROY and BATCH_FORGET. */
    method HandleOther(guard: RequestGuard, op: Opcodes.Opcode, node: u64, body: seq<byte>) returns (ok: bool)
      requires Linked() && Sized(State()) && guard.fd == fd && guard.unique == guard.id && guard !in Guards()
      requires op != Opcodes.Destroy && op != Opcodes.BatchForget
      modifies this`pending, buf`strong, fd, guard
      ensures Linked()
      ensures var d := DecodeOp(ops, op, guard.id, node, body);
              ok == !d.failed && State() == Streams.Deliver(fd.oracle, old(State()), guard.id, d, guard.message)
    {
      OneAtMost(ops, op, guard.id, node, body);
      var d := DecodeOp(ops, op, guard.unique, node, body);
      Deliver(guard, d);
      ok := !d.failed;
    }

    /** `process_request` on the first `n` bytes of the buffer. */
    method ProcessRequest(n: nat) returns (ok: bool)
      requires Linked() && Sized(State()) && n <= READ_BUF_SIZE
      modifies this`pending, this`initDone, this`finished, this`past, buf`strong, fd
      ensures Linked()
      ensures (State(), ok) == Process(Env(), old(State()), n)
    {
      ghost var was := State();
      assert was.bufs[was.cur].data == buf.data;
      var msg := buf.data[..n];
      var header := ReadHeader(msg);
      if header.None? {
        ok := RefuseMessage(msg);
      } else if !initDone {
        ok := HandleInit(header.value, msg[IN_HEADER_SIZE..]);
      } else {
        ok := HandleMessage(header.value, msg);
      }
    }

    /** Without a header that fits the message is an error. */
    method RefuseMessage(msg: seq<byte>) returns (ok: bool)
      requires Linked() && Sized(State()) && ReadHeader(msg).None?
      modifies this`past
      ensures Linked() && !ok
      ensures State() == if initDone then Handle(fd.oracle, old(State()), msg, Broken).0 else old(State())
    {
      NoneDelivered(State(), Broken, |past.accepted|);
      if initDone { past := WithMessage(past, msg, Broken); }
      return false;
    }

    // ----- polling

    /** Read a message and process it; meanwhile the loop holds the buffer itself. */
    method ReceiveMessage(bytes: seq<byte>) returns (ok: bool)
      requires Linked() && Sized(State()) && |bytes| <= READ_BUF_SIZE
      modifies this`pending, this`initDone, this`finished, this`past, buf, fd
      ensures Linked()
      ensures (State(), ok) == Process(Env(), Fill(old(State()), bytes), |bytes|)
    {
      ReadInto(bytes);
      ghost var filled := State();
      Share();
      ok := ProcessRequest(|bytes|);
      SharedProcess(Env(), filled, |bytes|);
      ReleaseBuffer(buf);
    }

    /** `Arc::clone` of the read buffer. */
    method Share()
      requires Linked() && Sized(State())
      modifies buf`strong
      ensures Linked()
      ensures State() == Shared(old(State()))
    {
      ghost var was := State();
      assert was.bufs[was.cur] == Buf(buf.data, buf.strong);
      buf.strong := buf.strong + 1;
      assert BufsOf(heap) == Shared(was).bufs;
    }

    /** One turn of the loop of `poll_next`; None means that it goes on. */
    method TakeTurn(input: Input) returns (r: Option<Polled>)
      requires Linked() && Sized(State()) && GoodInput(input) && !watcher.done
      modifies this`pending, this`initDone, this`finished, this`past, this`buf, this`heap, buf, fd, watcher
      ensures Linked()
      ensures (State(), r) == Turn(Env(), old(State()), input) && (watcher.done ==> finished)
      ensures buf == old(buf) || fresh(buf)
    {
      var over := watcher.Poll(input.WatcherReady?);
      if over {
        finished := true;
        return Some(Ended);
      }
      r := ReadWhenReady(input);
    }

    /** The rest of the turn: is there something to read, and whose buffer is it to go to? */
    method ReadWhenReady(input: Input) returns (r: Option<Polled>)
      requires Linked() && Sized(State()) && GoodInput(input) && !input.WatcherReady?
      modifies this`pending, this`initDone, this`finished, this`past, this`buf, this`heap, buf, fd
      ensures Linked()
      ensures (State(), r) == Turn(Env(), old(State()), input)
      ensures buf == old(buf) || fresh(buf)
    {
      if input.NotReady? { return Some(Pending); }
      if input.ReadinessFails? { return Some(Failed); }
      RefreshBuffer();
      r := ReadDevice(input);
    }

    /** The `read` and what it leads to. */
    method ReadDevice(input: Input) returns (r: Option<Polled>)
      requires Linked() && Sized(State()) && GoodInput(input)
      requires input.WouldBlock? || input.Eof? || input.ReadFails? || input.Message?
      modifies this`pending, this`initDone, this`finished, this`past, buf, fd
      ensures Linked()
      ensures (State(), r) == AfterRefresh(Env(), old(State()), input)
    {
      match input {
        case WouldBlock => return None;
        case Eof =>
          finished := true;
          return Some(Ended);
        case ReadFails(errno) =>
          if errno == ENODEV || errno == ECONNABORTED {
            finished := true;
            return Some(Ended);
          }
          return Some(Failed);
        case Message(bytes) =>
          var ok := ReceiveMessage(bytes);
          return if ok then None else Some(Failed);
      }
    }

    /** The body of the loop of `poll_next`, with `inputs` from `at` on still to come. */
    method Advance(inputs: seq<Input>, at: nat) returns (r: Option<PollResult>, next: nat)
      requires Linked() && Pollable() && GoodInputs(inputs) && at <= |inputs|
      modifies this, fd, watcher, buf
      ensures Linked() && Pollable()
      ensures buf == old(buf) || fresh(buf)
      ensures r.None? ==> next == at + 1 <= |inputs| && held == old(held)
      ensures r.None? ==>
                Ahead(Poll(Env(), old(State()), inputs[at..]), at) == Ahead(Poll(Env(), State(), inputs[next..]), next)
      ensures r.Some? ==> Returned(r.value, old(held), held, State(), next,
                Ahead(Poll(Env(), old(State()), inputs[at..]), at))
    {
      if pending != [] {
        var x := PopFront();
        return Some(Ready(x)), at;
      }
      if finished { return Some(Other(Ended)), at; }
      if at == |inputs| { return Some(Other(Pending)), at; }
      ghost var was := State();
      DropOne(inputs, at);
      PollTakesTurn(Env(), was, inputs[at..]);
      var over := TakeTurn(inputs[at]);
      if over.None? {
        AheadOne(Poll(Env(), was, inputs[at..]), Poll(Env(), State(), inputs[at + 1..]), at);
        return None, at + 1;
      }
      return Some(Other(over.value)), at + 1;
    }

    /** `poll_next`; `inputs` is what the outside world does meanwhile. */
    method PollNext(inputs: seq<Input>) returns (r: PollResult, used: nat)
      requires Valid() && GoodInputs(inputs)
      modifies this, fd, watcher, buf
      ensures Valid()
      ensures Returned(r, old(held), held, State(), used, Poll(Env(), old(State()), inputs))
    {
      PollKeeps(Env(), State(), inputs);
      r, used := PollLoop(inputs);
    }

    method PollLoop(inputs: seq<Input>) returns (r: PollResult, used: nat)
      requires Linked() && Pollable() && GoodInputs(inputs)
      modifies this, fd, watcher, buf
      ensures Linked()
      ensures Returned(r, old(held), held, State(), used, Poll(Env(), old(State()), inputs))
    {
      ghost var goal := Poll(Env(), State(), inputs);
      var over: Option<PollResult> := None;
      used := 0;
      assert inputs[0..] == inputs;
      while over.None?
        invariant Linked() && Pollable()
        invariant over.None? ==> used <= |inputs| && held == old(held)
        invariant over.None? ==> goal == Ahead(Poll(Env(), State(), inputs[used..]), used)
        invariant over.Some? ==> Returned(over.value, old(held), held, State(), used, goal)
        invariant buf == old(buf) || fresh(buf)
        decreases over.None?, |inputs| - used
      {
        over, used := Advance(inputs, used);
      }
      r := over.value;
    }

    // ----- what the client does

    /** `Write::data`: the bytes of the message the write came from, whatever was read since. */
    method WriteData(ghost i: nat, x: Item) returns (data: seq<byte>)
      requires Valid() && i < |held| && held[i] == x && x.body.ReqWrite?
      ensures x.guard.message < |past.accepted| && WRITE_DATA_OFFSET + x.body.size <= |past.accepted[x.guard.message]|
      ensures data == past.accepted[x.guard.message][WRITE_DATA_OFFSET..WRITE_DATA_OFFSET + x.body.size]
    {
      assert held[i] in held && Armed(x, fd, heap);
      TicketShows(Env(), State(), State().held[i]);
      data := ReadData(x);
    }

    method ReadData(x: Item) returns (data: seq<byte>)
      requires Indexed() && x.body.ReqWrite? && x.buffer.Some? && Armed(x, fd, heap)
      requires InBuffer(State().bufs, x.buffer.value.id, x.body.dataOffset, x.body.size)
      ensures data == View(State(), TicketOf(x)).body.data
    {
      data := x.buffer.value.data[x.body.dataOffset..x.body.dataOffset + x.body.size];
    }

    /** Any method of a request that consumes it: an answer, a failure, or just dropping it. */
    method Answer(ghost i: nat, x: Item, call: Call) returns (r: Outcome)
      requires Valid() && i < |held| && held[i] == x && Offers(x.body, call)
      modifies this`held, this`past, fd, x.guard, if x.buffer.Some? then {x.buffer.value} else {}
      ensures Valid()
      ensures State() == AnswerHeld(Env(), old(State()), i, call)
      ensures r == Told(x.body, PlanOf(x.body, call),
                        Attempts(fd.oracle, |old(fd.log)|, x.guard.id, PlanOf(x.body, call)))
    {
      AnswerKeeps(Env(), State(), i, call);
      if x.buffer.Some? { BufferCounted(i, x); }
      r := Finish(i, x, call);
    }

    lemma BufferCounted(i: nat, x: Item)
      requires Valid() && i < |held| && held[i] == x && x.buffer.Some?
      ensures x.buffer.value.strong > 0
    {
      var st := State();
      assert held[i] in held && Armed(x, fd, heap);
      HolderCounts(st, i);
      assert st.bufs[x.buffer.value.id] == Buf(x.buffer.value.data, x.buffer.value.strong);
    }

    method Finish(ghost i: nat, x: Item, call: Call) returns (r: Outcome)
      requires Linked() && i < |held| && held[i] == x && Offers(x.body, call)
      requires x.buffer.Some? ==> x.buffer.value.strong > 0
      modifies this`held, this`past, fd, x.guard, if x.buffer.Some? then {x.buffer.value} else {}
      ensures Linked()
      ensures State() == AnswerHeld(Env(), old(State()), i, call)
      ensures r == Told(x.body, PlanOf(x.body, call),
                        Attempts(fd.oracle, |old(fd.log)|, x.guard.id, PlanOf(x.body, call)))
    {
      assert held[i] in held && Armed(x, fd, heap);
      if x.buffer.Some? { ReleaseBuffer(x.buffer.value); }
      r := Consume(i, x, call);
    }

    /** The request's share of its buffer goes. */
    method ReleaseBuffer(b: Buffer)
      requires Linked() && b.id < |heap| && heap[b.id] == b && b.strong > 0
      modifies b`strong
      ensures Linked()
      ensures State() == old(State()).(bufs := Released(old(State()).bufs, Some(b.id)))
    {
      ghost var was := State();
      assert was.bufs[b.id] == Buf(b.data, b.strong);
      b.strong := b.strong - 1;
      assert BufsOf(heap) == Released(was.bufs, Some(b.id));
    }

    method Consume(ghost i: nat, x: Item, call: Call) returns (r: Outcome)
      requires Linked() && i < |held| && held[i] == x && Offers(x.body, call)
      modifies this`held, this`past, fd, x.guard
      ensures Linked()
      ensures State() == CarryOut(fd.oracle, old(State()), i, PlanOf(x.body, call)).(bufs := old(State()).bufs)
      ensures r == Told(x.body, PlanOf(x.body, call),
                        Attempts(fd.oracle, |old(fd.log)|, x.guard.id, PlanOf(x.body, call)))
    {
      ghost var was := State();
      TakeOut(i, x);
      r := Replies.Answer(x.body, x.guard, call);
      Settle(was, i, PlanOf(x.body, call));
    }

    /** What became of the request goes into the books. */
    ghost method Settle(was: Session, i: nat, plan: Plan)
      requires Linked() && i < |was.held|
      requires State() == was.(held := Without(was.held, i),
                               log := was.log + Attempts(fd.oracle, |was.log|, was.held[i].unique, plan))
      modifies this`past
      ensures Linked()
      ensures State() == CarryOut(fd.oracle, was, i, plan).(bufs := was.bufs)
    {
      past := if plan.Silent? then past.(quiet := past.quiet + [was.held[i].unique])
              else if Unsendable(plan) then past.(lost := past.lost + [was.held[i].unique])
              else past;
    }

    /** The client gives the request away. */
    ghost method TakeOut(i: nat, x: Item)
      requires Linked() && i < |held| && held[i] == x
      modifies this`held
      ensures Linked() && Armed(x, fd, heap) && x.guard !in Guards()
      ensures State() == old(State()).(held := Without(old(State()).held, i))
    {
      ghost var was := State();
      assert held[i] in held && Armed(x, fd, heap);
      SeparateRemove(pending, held, i);
      held := held[..i] + held[i + 1..];
      assert TicketsOf(held) == Without(was.held, i);
    }
  }

  /** A buffer in use is counted. */
  lemma HolderCounts(st: Session, i: nat)
    requires Sized(st) && Owned(st) && Authentic(st) && i < |st.held|
    ensures st.held[i].buf.Some? ==> st.held[i].buf.value < |st.bufs| && st.bufs[st.held[i].buf.value].strong > 0
  {
    assert Shows(st, st.held[i]);
    if st.held[i].buf.Some? {
      var b := st.held[i].buf.value;
      TallyWithout(st.held, i, ByBuf(b));
      assert Owners(st, b);
    }
  }

  /** What a poll returned is what it should, in the state it should leave. */
  ghost predicate Returned(r: PollResult, held: seq<Item>, held': seq<Item>, st: Session, used: nat,
          goal: (Session, Polled, nat))
  {
    && st == goal.0 && used == goal.2
    && if r.Ready? then goal.1.Yield? && held' == held + [r.item] else goal.1 == r.polled && held' == held
  }

  ghost function Ahead(r: (Session, Polled, nat), used: nat): (Session, Polled, nat) { (r.0, r.1, r.2 + used) }

  lemma AheadOne(p: (Session, Polled, nat), q: (Session, Polled, nat), used: nat)
    requires p == OneMore(q)
    ensures Ahead(p, used) == Ahead(q, used + 1)
  {
  }

  lemma DropOne(inputs: seq<Input>, at: nat)
    requires at < |inputs|
    ensures inputs[at..] != [] && inputs[at..][0] == inputs[at] && inputs[at..][1..] == inputs[at + 1..]
  {
  }

  lemma PollTakesTurn(env: Env, st: Session, inputs: seq<Input>)
    requires Sized(st) && GoodInputs(inputs) && inputs != [] && st.pending == [] && !st.finished
    ensures GoodInput(inputs[0])
    ensures var (st1, r) := Turn(env, st, inputs[0]);
            Poll(env, st, inputs) == if r.Some? then (st1, r.value, 1) else OneMore(Poll(env, st1, inputs[1..]))
  {
    assert GoodInput(inputs[0]);
  }

  lemma OneAtMost(ops: Ops, op: Opcodes.Opcode, u: u64, node: u64, body: seq<byte>)
    requires op != Opcodes.Destroy && op != Opcodes.BatchForget
    ensures var d := DecodeOp(ops, op, u, node, body);
            && !d.finish && (d.requests != [] ==> !d.rejected && d.requests == [Request(u, d.requests[0].body)])
  {
    OpAtMostOne(ops, op, u, node, body);
  }

  lemma BatchLength(count: nat, body: seq<byte>)
    requires |body| >= 8
    ensures |BatchRecords(count, body[8..])| == Min(count, (|body| - 8) / 16)
  {
    BatchRecordsAre(count, body[8..]);
  }

  /** The record at its offset is the next one of the batch. */
  lemma NextRecord(count: nat, body: seq<byte>, i: nat)
    requires |body| >= 8 && i < |BatchRecords(count, body[8..])| && 8 + 16 * i + 16 <= |body|
    ensures SizeOf(FORGET_ONE) == 16 && Fields(FORGET_ONE) == 2
    ensures var entry := ReadBody(FORGET_ONE, body[8 + 16 * i..]).value;
            BatchRecords(count, body[8..])[i] == Request(0, ReqForget(Wrap64(entry[0]), Wrap64(entry[1])))
  {
    BatchRecordsAre(count, body[8..]);
    RecordAt(body[8 + 16 * i..]);
    assert body[8..][16 * i..] == body[8 + 16 * i..];
  }

  lemma TakeOneMore(before: seq<Ticket>, ts: seq<Ticket>, i: nat)
    requires i < |ts|
    ensures (before + ts[..i]) + [ts[i]] == before + ts[..i + 1]
  {
  }

  lemma FinishDelivered(oracle: Oracle, st: Session, unique: u64, message: nat)
    requires Sized(st)
    ensures Streams.Deliver(oracle, st, unique, Messages.Finish, message) == Stop(st)
  {
    NoneDelivered(st, Messages.Finish, message);
  }

  /** The id plays no part unless the guard answers. */
  lemma SilentDelivered(oracle: Oracle, st: Session, unique: u64, d: Decoded, message: nat)
    requires Sized(st) && !d.rejected
    ensures Streams.Deliver(oracle, st, unique, d, message) == Streams.Deliver(oracle, st, 0, d, message)
  {
  }

  lemma HeldNothing(bufs: seq<Buf>, b: nat)
    requires b < |bufs|
    ensures Held(bufs, b, 0) == bufs
  {
  }

  lemma ForgetsDelivered(st: Session, ops: Ops, body: seq<byte>, message: nat)
    requires Sized(st)
    ensures var ts := Tickets(DecodeBatchForget(ops, body).requests, st.cur, message);
            Held(st.bufs, st.cur, Tally(ts, ByBuf(st.cur))) == st.bufs
  {
    BatchShape(ops, body);
    TallyNone(Tickets(DecodeBatchForget(ops, body).requests, st.cur, message), ByBuf(st.cur));
    HeldNothing(st.bufs, st.cur);
  }

  /** One accepted request is one ticket more. */
  lemma OneDelivered(oracle: Oracle, st: Session, d: Decoded, guard: RequestGuard, buf: Buffer)
    requires Sized(st) && st.cur == buf.id && |d.requests| == 1 && d.requests[0].unique == guard.id && !d.rejected
              && !d.finish
    ensures var t := TicketOf(ItemFor(guard, d.requests[0].body, buf));
            Streams.Deliver(oracle, st, guard.id, d, guard.message) ==
              st.(pending := st.pending + [t], bufs := Held(st.bufs, st.cur, One(d.requests[0].body.ReqWrite?)))
  {
    var t := TicketOf(ItemFor(guard, d.requests[0].body, buf));
    var ts := Tickets(d.requests, st.cur, guard.message);
    assert ts == [t];
    TallyOne(t, ByBuf(st.cur));
  }

  lemma NoneDelivered(st: Session, d: Decoded, message: nat)
    requires Sized(st) && d.requests == []
    ensures Tickets(d.requests, st.cur, message) == []
    ensures Held(st.bufs, st.cur, 0) == st.bufs && st.pending + [] == st.pending
  {
    assert st.bufs[st.cur := st.bufs[st.cur]] == st.bufs;
  }

  /** The read buffer with one more owner. */
  function Shared(st: Session): (r: Session)
    requires Sized(st)
    ensures Sized(r)
  {
    st.(bufs := Held(st.bufs, st.cur, 1))
  }

  /** Processing a message does not depend on who else holds the buffer, and leaves that count alone. */
  lemma SharedProcess(env: Env, st: Session, n: nat)
    requires Sized(st) && n <= READ_BUF_SIZE
    ensures var (r, shared) := (Process(env, st, n), Process(env, Shared(st), n));
            && shared.1 == r.1 && shared.0.cur == st.cur < |shared.0.bufs|
            && shared.0.bufs[st.cur].strong > 0
            && shared.0.(bufs := Released(shared.0.bufs, Some(st.cur))) == r.0
  {
    var msg := Read(st, n);
    assert Read(Shared(st), n) == msg;
    if st.initDone {
      SharedHandle(env.oracle, st, msg, Decode(env.ops, msg));
    } else {
      SharedInit(env, st, msg);
    }
  }

  lemma SharedInit(env: Env, st: Session, msg: seq<byte>)
    requires Sized(st)
    ensures var (r, shared) := (HandleInit(env, st, msg), HandleInit(env, Shared(st), msg));
            && shared.1 == r.1 && shared.0.cur == st.cur < |shared.0.bufs|
            && shared.0.bufs[st.cur].strong > 0
            && shared.0.(bufs := Released(shared.0.bufs, Some(st.cur))) == r.0
  {
    SharedOnce(st.bufs, st.cur, 0);
    HeldNothing(st.bufs, st.cur);
    HeldNothing(Shared(st).bufs, st.cur);
    if ReadHeader(msg).Some? {
      var h := ReadHeader(msg).value;
      SharedGreet(env.oracle, st, h.unique, InitReply(env, h, msg[IN_HEADER_SIZE..]));
    }
  }

  lemma SharedGreet(oracle: Oracle, st: Session, unique: u64, reply: Option<seq<byte>>)
    requires Sized(st)
    ensures var (r, shared) := (Greet(oracle, st, unique, reply), Greet(oracle, Shared(st), unique, reply));
            shared.1 == r.1 && shared.0 == r.0.(bufs := Shared(st).bufs) && r.0.bufs == st.bufs
  {
  }

  lemma SharedOnce(bufs: seq<Buf>, b: nat, more: nat)
    requires b < |bufs|
    ensures var shared := Held(Held(bufs, b, 1), b, more);
            shared[b].strong > 0 && Released(shared, Some(b)) == Held(bufs, b, more)
  {
  }

  lemma SharedHandle(oracle: Oracle, st: Session, msg: seq<byte>, d: Decoded)
    requires Sized(st)
    ensures var (r, shared) := (Handle(oracle, st, msg, d), Handle(oracle, Shared(st), msg, d));
            && shared.1 == r.1 && shared.0.cur == st.cur < |shared.0.bufs|
            && shared.0.bufs[st.cur].strong > 0
            && shared.0.(bufs := Released(shared.0.bufs, Some(st.cur))) == r.0
  {
    SharedOnce(st.bufs, st.cur, Tally(Tickets(d.requests, st.cur, |st.past.accepted|), ByBuf(st.cur)));
  }

  ghost function ItemFor(guard: RequestGuard, body: Body, buf: Buffer): Item
  {
    if body.ReqWrite? then Item(guard, body.(data := []), Some(buf)) else Item(guard, body, None)
  }

  lemma SeparateInsert(a: seq<Item>, b: seq<Item>, x: Item)
    requires Separate(a + b) && (forall y :: y in a ==> y.guard != x.guard)
              && (forall y :: y in b ==> y.guard != x.guard)
    ensures Separate((a + [x]) + b)
  {
    var all, now := a + b, (a + [x]) + b;
    forall i, j | 0 <= i < j < |now| ensures now[i].guard != now[j].guard {
      if j < |a| {
        assert now[i] == all[i] && now[j] == all[j];
      } else if i < |a| && j > |a| {
        assert now[i] == all[i] && now[j] == all[j - 1];
      } else if i > |a| {
        assert now[i] == all[i - 1] && now[j] == all[j - 1];
      } else if i == |a| {
        assert now[j] in b;
      } else {
        assert now[i] in a;
      }
    }
  }

  lemma SeparateMove(a: seq<Item>, b: seq<Item>)
    requires Separate(a + b) && a != []
    ensures Separate(a[1..] + (b + [a[0]]))
  {
    var all, now := a + b, a[1..] + (b + [a[0]]);
    forall i, j | 0 <= i < j < |now| ensures now[i].guard != now[j].guard {
      assert now[i] == all[i + 1];
      assert now[j] == if j == |now| - 1 then all[0] else all[j + 1];
    }
  }

  lemma SeparateRemove(a: seq<Item>, b: seq<Item>, i: nat)
    requires Separate(a + b) && i < |b|
    ensures Separate(a + (b[..i] + b[i + 1..]))
    ensures forall y :: y in a || y in b[..i] + b[i + 1..] ==> y.guard != b[i].guard
    ensures forall y :: y in b[..i] + b[i + 1..] ==> y in b
  {
    var all, now := a + b, a + (b[..i] + b[i + 1..]);
    forall k | 0 <= k < |now| ensures now[k] == all[if k < |a| + i then k else k + 1] {
    }
    forall y | y in a || y in b[..i] + b[i + 1..] ensures y.guard != b[i].guard {
      assert y in now;
      var k :| 0 <= k < |now| && now[k] == y;
      assert all[|a| + i] == b[i];
    }
  }
}
