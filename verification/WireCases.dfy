/** Messages and calls where the protocol's promise, one answer to each message that takes one and none to
    the others, fails. */
module WireCases {
  import opened Bytes
  import opened Protocol
  import Opcodes
  import opened Messages
  import opened RoundTrips
  import R = Replies
  import opened Streams

  /** A FORGET that ends behind its header is malformed whether forgets are wanted or not, and the guard
      answers it ENOSYS, although nobody answers a FORGET. */
  lemma CutForgetIsAnswered(ops: Ops, s: Sender, o: R.Oracle, st: Session)
    requires Sized(st) && s.unique != 0
    ensures var msg := Framed(s, Opcodes.ToU32(Opcodes.Forget), []);
            && Decode(ops, msg) == Malformed
            && Handle(o, st, msg, Decode(ops, msg)).0.log ==
                 st.log + [R.Attempt(s.unique, 0 - ENOSYS, [], o(|st.log|))]
  {
    var msg := Framed(s, Opcodes.ToU32(Opcodes.Forget), []);
    FramedDecodes(ops, s, Opcodes.Forget, []);
    FrameDecodes(s, Opcodes.ToU32(Opcodes.Forget), []);
    assert ReadBody(FORGET_IN, []).None?;
    assert IdOf(msg) == s.unique;
  }

  /** A read of 2^32 - 16 bytes: a vectored answer with all of them is not sent, and nothing is sent
      instead. */
  lemma HugeReadIsNotAnswered(node: u64, handle: u64, offset: u64, data: seq<byte>, o: R.Oracle, n: nat, unique: u64)
    requires |data| == 0x1_0000_0000 - R.OUT_HEADER_SIZE
    ensures var b, call := ReqRead(node, handle, |data|, offset), R.ReplyVectored([data]);
            && R.Offers(b, call) && R.Attempts(o, n, unique, R.PlanOf(b, call)) == []
            && R.Told(b, R.PlanOf(b, call), []) == R.NotSent
  {
    assert R.Flat([data]) == data + R.Flat([data][1..]) == data;
  }
}
