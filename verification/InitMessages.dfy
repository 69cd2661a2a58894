/** The INIT message and the answer to it, by the offsets of their bytes. */
module InitMessages {
  import opened Bytes
  import opened Protocol
  import opened Messages
  import opened MessageBytes
  import opened Negotiation
  import opened Replies
  import opened Streams
  import RoundTrips
  import Opcodes

  /** A complete INIT message of major version 7. */
  predicate GoodInit(msg: seq<byte>)
  {
    HasHeader(msg) && Int32(msg, 4) == 26 && |msg| >= 104 && Int32(msg, 40) == 7
  }

  /** The answer to it: our major version, the smaller of the minor versions, its readahead, the flags
      agreed on, how long a write may be and how many pages that is. */
  predicate AnswersInit(env: Env, msg: seq<byte>, data: seq<byte>)
    requires GoodInit(msg)
  {
    && |data| == 64
    && Int32(data, 0) == 7 && Int32(data, 4) == Min(Int32(msg, 44), 31) && Int32(data, 8) == Int32(msg, 48)
    && Agreed(env.ops, env.pageSize, Int32(msg, 52) as bv32, Int32(data, 12) as bv32)
    && Int32(data, 20) == 262144 && Int32(data, 24) == 1
    && Int(data, 28, 2) == if env.pageSize > 0 && Has(Int32(msg, 52) as bv32, MAX_PAGES)
                           then 262144 / env.pageSize % 0x1_0000 else 0
  }

  /** The fields of an INIT message. */
  function InitOf(msg: seq<byte>): InitIn
    requires |msg| >= 104
  {
    InitIn(Int32(msg, 40), Int32(msg, 44), Int32(msg, 48), Int32(msg, 52) as bv32)
  }

  function BodyInit(body: seq<byte>): InitIn
    requires |body| >= 64
  {
    InitIn(Int32(body, 0), Int32(body, 4), Int32(body, 8), Int32(body, 12) as bv32)
  }

  lemma BodyInts(msg: seq<byte>)
    requires |msg| >= 104
    ensures Int32(msg[40..], 0) == Int32(msg, 40) && BodyInit(msg[40..]) == InitOf(msg)
  {
    assert msg[40..][0..4] == msg[40..44] && msg[40..][4..8] == msg[44..48];
    assert msg[40..][8..12] == msg[48..52] && msg[40..][12..16] == msg[52..56];
  }

  lemma InitFieldsAt(body: seq<byte>)
    requires |body| >= 64
    ensures SizeOf(INIT_IN) == 64
    ensures var f := Unpack(INIT_IN, body);
            && |f| == 16 && f[0] == Int32(body, 0) && f[1] == Int32(body, 4) && f[2] == Int32(body, 8)
            && f[3] == Int32(body, 12)
  {
    WireStructSizes();
    InitFields();
    StructAt(INIT_IN, body);
    PairAt(Unpack(INIT_IN, body), 2, INIT_IN.rest.rest, body, 8);
  }

  /** What is refused, and what is answered with what was negotiated. */
  lemma InitReplyIs(env: Env, msg: seq<byte>)
    requires HasHeader(msg)
    ensures ReadHeader(msg).Some? && ReadHeader(msg).value.unique == Int64(msg, 8)
    ensures InitReply(env, ReadHeader(msg).value, msg[40..]) ==
              if GoodInit(msg) then Some(InitOutBytes(NegotiateInit(InitOf(msg), env.ops, env.pageSize))) else None
  {
    HeaderExactly(msg);
    var h, body := ReadHeader(msg).value, msg[40..];
    IsInitOpcode(Int32(msg, 4));
    if |msg| >= 104 { BodyInts(msg); }
    BodyReply(env, h, body);
    assert h.opcode == Int32(msg, 4) && |body| == |msg| - 40;
  }

  lemma IsInitOpcode(v: nat)
    ensures Opcodes.FromU32(v) == Some(Opcodes.Init) <==> v == 26
  {
    Opcodes.OpcodeNumbers(Opcodes.Init, v);
  }

  lemma BodyReply(env: Env, h: Header, body: seq<byte>)
    ensures InitReply(env, h, body) ==
              if Opcodes.FromU32(h.opcode) == Some(Opcodes.Init) && |body| >= 64 && Int32(body, 0) == 7
              then Some(InitOutBytes(NegotiateInit(BodyInit(body), env.ops, env.pageSize))) else None
  {
    WireStructSizes();
    if |body| >= 64 { InitFieldsAt(body); }
  }

  /** The bytes of the answer. */
  lemma OutFieldsAt(data: seq<byte>)
    requires |data| == 64
    ensures SizeOf(INIT_OUT) == 64
    ensures var f := Unpack(INIT_OUT, data);
            && |f| >= 10 && f[0] == Int32(data, 0) && f[1] == Int32(data, 4) && f[2] == Int32(data, 8)
            && f[3] == Int32(data, 12) && f[6] == Int32(data, 20) && f[7] == Int32(data, 24) && f[8] == Int(data, 28, 2)
  {
    ReplyStructSizes();
    var f := Unpack(INIT_OUT, data);
    var l4 := INIT_OUT.rest.rest.rest.rest;
    StructAt(INIT_OUT, data);
    PairAt(f, 2, INIT_OUT.rest.rest, data, 8);
    PairAt(f, 4, l4, data, 16);
    PairAt(f, 6, l4.rest.rest, data, 20);
    PairAt(f, 8, l4.rest.rest.rest.rest, data, 28);
  }

  lemma NegotiatedAnswers(env: Env, msg: seq<byte>)
    requires GoodInit(msg)
    ensures AnswersInit(env, msg, InitOutBytes(NegotiateInit(InitOf(msg), env.ops, env.pageSize)))
  {
    var init := InitOf(msg);
    var out := NegotiateInit(init, env.ops, env.pageSize);
    InitReadsBack(out);
    OutFieldsAt(InitOutBytes(out));
    FlagsAgree(init, env.ops, env.pageSize);
    PagesNegotiated(init, env.ops, env.pageSize);
  }

  /** One more write, which answers the message of that id without an error. */
  predicate OneAnswer(o: Oracle, log: seq<Attempt>, log': seq<Attempt>, unique: u64)
  {
    && |log'| == |log| + 1 && log'[..|log|] == log
    && log'[|log|] == Attempt(unique, 0, log'[|log|].data, o(|log|))
  }

  /** What is neither the answer nor the book entry of the INIT message. */
  predicate SameQueues(st: Session, st': Session)
  {
    && st'.pending == st.pending && st'.held == st.held && st'.finished == st.finished
    && st'.watcherDone == st.watcherDone && st'.bufs == st.bufs && st'.cur == st.cur
    && st'.past.accepted == st.past.accepted && st'.past.yielded == st.past.yielded && st'.past.made == st.past.made
  }

  /** `handle_init`: a good INIT message is answered, and starts the session if the answer is taken; any
      other message is refused and nothing is written. */
  lemma HandleInitExactly(env: Env, st: Session, msg: seq<byte>)
    requires !st.initDone
    ensures var (st', ok) := HandleInit(env, st, msg);
            && (ok <==> GoodInit(msg) && env.oracle(|st.log|).None?) && st'.initDone == ok
            && (if GoodInit(msg) then
                  && OneAnswer(env.oracle, st.log, st'.log, Int64(msg, 8))
                  && AnswersInit(env, msg, st'.log[|st.log|].data)
                else st'.log == st.log)
            && st'.past.inits == (if ok then st.past.inits + [st'.log[|st.log|].data] else st.past.inits)
            && SameQueues(st, st')
  {
    HeaderExactly(msg);
    if HasHeader(msg) {
      InitReplyIs(env, msg);
      var reply := InitReply(env, ReadHeader(msg).value, msg[40..]);
      GreetExactly(env.oracle, st, Int64(msg, 8), reply);
      if GoodInit(msg) { NegotiatedAnswers(env, msg); }
    }
  }

  lemma GreetExactly(o: Oracle, st: Session, unique: u64, reply: Option<seq<byte>>)
    requires !st.initDone
    ensures var (st', ok) := Greet(o, st, unique, reply);
            && (ok <==> reply.Some? && o(|st.log|).None?) && st'.initDone == ok
            && (if reply.Some? then OneAnswer(o, st.log, st'.log, unique) && st'.log[|st.log|].data == reply.value
                else st'.log == st.log)
            && st'.past.inits == (if ok then st.past.inits + [st'.log[|st.log|].data] else st.past.inits)
            && SameQueues(st, st')
  {
  }

  // ----- framed messages

  /** The sixteen fields of `fuse_init_in`. */
  function InitFieldsOf(init: InitIn, flags2: u32, unused: seq<u32>): (f: seq<nat>)
    requires |unused| == 11
  {
    [init.major, init.minor, init.maxReadahead, init.flags as nat, flags2] + unused
  }

  /** A layout of 32-bit fields only. */
  predicate Words(l: Layout) { l.End? || (l.U32? && Words(l.rest)) }

  lemma {:induction false} WordsRepresentable(l: Layout, vs: seq<nat>)
    requires Words(l) && |vs| == Fields(l) && forall k :: 0 <= k < |vs| ==> vs[k] < 0x1_0000_0000
    ensures Representable(l, vs)
  {
    if !l.End? {
      Powers();
      WordsRepresentable(l.rest, vs[1..]);
    }
  }

  lemma InitIsWords()
    ensures Words(INIT_IN) && Fields(INIT_IN) == 16
  {
    var words := U32(U32(U32(U32(U32(U32(U32(U32(End))))))));
    assert Words(words);
    assert Words(U32(U32(U32(U32(words)))));
    InitFields();
  }

  /** The INIT message of the kernel. */
  function InitMessage(s: RoundTrips.Sender, init: InitIn, flags2: u32, unused: seq<u32>, tail: seq<byte>): seq<byte>
    requires |unused| == 11
  {
    InitFields();
    RoundTrips.Framed(s, 26, RoundTrips.Packed(INIT_IN, InitFieldsOf(init, flags2, unused), tail))
  }

  /** Its fields are read where they were put, and it is a good one exactly if it says major version 7. */
  lemma InitMessageReads(s: RoundTrips.Sender, init: InitIn, flags2: u32, unused: seq<u32>, tail: seq<byte>)
    requires |unused| == 11 && |tail| < 0x1_0000_0000 - 104
    ensures var msg := InitMessage(s, init, flags2, unused, tail);
            && |msg| == 104 + |tail| && HasHeader(msg) && Int32(msg, 4) == 26 && Int64(msg, 8) == s.unique
            && InitOf(msg) == init && (GoodInit(msg) <==> init.major == 7)
  {
    var f := InitFieldsOf(init, flags2, unused);
    InitIsWords();
    WordsRepresentable(INIT_IN, f);
    WireStructSizes();
    var payload := RoundTrips.Packed(INIT_IN, f, tail);
    RoundTrips.PackedReads(INIT_IN, f, tail);
    FramedReads(s, payload);
    InitFieldsAt(payload);
    FlagsSurvive(init.flags);
    BodyInts(InitMessage(s, init, flags2, unused, tail));
  }

  lemma FlagsSurvive(flags: bv32)
    ensures (flags as nat) as bv32 == flags
  {
  }

  lemma FramedReads(s: RoundTrips.Sender, payload: seq<byte>)
    requires 40 + |payload| < 0x1_0000_0000
    ensures var msg := RoundTrips.Framed(s, 26, payload);
            && |msg| == 40 + |payload| && HasHeader(msg) && Int32(msg, 4) == 26 && Int64(msg, 8) == s.unique
            && msg[40..] == payload
  {
    HeaderShape();
    RoundTrips.FrameDecodes(s, 26, payload);
    HeaderExactly(RoundTrips.Framed(s, 26, payload));
  }

  /** The handshake in the fields of the kernel: it succeeds exactly if the message says major version 7 and
      the answer is taken, and the answer is about those fields. */
  lemma FramedInitExactly(env: Env, st: Session, s: RoundTrips.Sender, init: InitIn, flags2: u32, unused: seq<u32>,
          tail: seq<byte>)
    requires !st.initDone && |unused| == 11 && |tail| < 0x1_0000_0000 - 104
    ensures var (st', ok) := HandleInit(env, st, InitMessage(s, init, flags2, unused, tail));
            && (ok <==> init.major == 7 && env.oracle(|st.log|).None?) && st'.initDone == ok
            && (if init.major == 7 then
                  && OneAnswer(env.oracle, st.log, st'.log, s.unique) && |st'.log[|st.log|].data| == 64
                  && var data := st'.log[|st.log|].data;
                     && Int32(data, 0) == 7 && Int32(data, 4) == Min(init.minor, 31)
                     && Int32(data, 8) == init.maxReadahead && Int32(data, 20) == 262144
                     && Agreed(env.ops, env.pageSize, init.flags, Int32(data, 12) as bv32)
                else st'.log == st.log)
  {
    InitMessageReads(s, init, flags2, unused, tail);
    HandleInitExactly(env, st, InitMessage(s, init, flags2, unused, tail));
  }
}
