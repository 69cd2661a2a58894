/** Bytes, little-endian integers and `repr(C)` layouts without implicit padding. */
module Bytes {
  type byte = x: int | 0 <= x < 256

  type u16 = x: int | 0 <= x < 0x1_0000
  type u32 = x: int | 0 <= x < 0x1_0000_0000
  type u64 = x: int | 0 <= x < 0x1_0000_0000_0000_0000

  /** `as u32` */
  function Wrap32(x: nat): (r: u32)
    ensures x < 0x1_0000_0000 ==> r == x
  {
    x % 0x1_0000_0000
  }

  /** `as u64` */
  function Wrap64(x: nat): (r: u64)
    ensures x < 0x1_0000_0000_0000_0000 ==> r == x
  {
    x % 0x1_0000_0000_0000_0000
  }

  datatype Option<+T> = None | Some(value: T)

  /** `io::Result`; an error without an errno of its own counts as EIO, as `io_fail` sends it. */
  datatype Result<+T> = Ok(value: T) | Err(errno: nat)

  /** A run of `n` zero bytes. */
  function Zeros(n: nat): (s: seq<byte>)
    ensures |s| == n && forall i :: 0 <= i < n ==> s[i] == 0
  {
    seq(n, _ => 0)
  }

  function Min(a: int, b: int): int { if a <= b then a else b }

  function Max(a: int, b: int): int { if a >= b then a else b }

  /** How often a thing that may or may not be there counts. */
  function One(b: bool): nat { if b then 1 else 0 }

  /** `s` with `data` written over it from `at` on. */
  function Over(s: seq<byte>, at: nat, data: seq<byte>): (r: seq<byte>)
    requires at + |data| <= |s|
    ensures |r| == |s|
  {
    s[..at] + data + s[at + |data|..]
  }

  /** `buf[lo..hi].fill(0)` */
  method FillZero(buf: array<byte>, lo: nat, hi: nat)
    requires lo <= hi <= buf.Length
    modifies buf
    ensures buf[..] == Over(old(buf[..]), lo, Zeros(hi - lo))
  {
    forall k | lo <= k < hi { buf[k] := 0; }
  }

  /** `buf[at..at + data.len()].copy_from_slice(data)` */
  method CopyInto(buf: array<byte>, at: nat, data: seq<byte>)
    requires at + |data| <= buf.Length
    modifies buf
    ensures buf[..] == Over(old(buf[..]), at, data)
  {
    forall k | at <= k < at + |data| { buf[k] := data[k - at]; }
  }

  // ----- little-endian integers

  function Pow256(w: nat): (p: nat)
    ensures p > 0
  {
    if w == 0 then 1 else 256 * Pow256(w - 1)
  }

  /** The low `w` bytes of `n`, least significant first: how an integer of that width is stored. */
  function LE(n: nat, w: nat): (s: seq<byte>)
    ensures |s| == w
    decreases w, n
  {
    if w == 0 then [] else [n % 256] + LE(n / 256, w - 1)
  }

  function FromLE(s: seq<byte>): nat
  {
    if s == [] then 0 else s[0] + 256 * FromLE(s[1..])
  }

  lemma {:induction false} FromLEofLE(n: nat, w: nat)
    requires n < Pow256(w)
    ensures FromLE(LE(n, w)) == n
    decreases w
  {
    if w > 0 {
      assert n / 256 < Pow256(w - 1);
      FromLEofLE(n / 256, w - 1);
      assert LE(n, w)[1..] == LE(n / 256, w - 1);
    }
  }

  lemma {:induction false} FromLEBound(s: seq<byte>)
    ensures FromLE(s) < Pow256(|s|)
  {
    if s != [] { FromLEBound(s[1..]); }
  }

  lemma {:induction false} LEofFromLE(s: seq<byte>)
    ensures LE(FromLE(s), |s|) == s
  {
    if s != [] {
      var n := FromLE(s);
      assert n % 256 == s[0] && n / 256 == FromLE(s[1..]);
      LEofFromLE(s[1..]);
    }
  }

  // ----- struct layouts

  /** The fields of a `repr(C)` struct in order; the structs of the protocol have no implicit padding. */
  datatype Layout = End | U16(rest: Layout) | U32(rest: Layout) | U64(rest: Layout)

  function Width(l: Layout): nat
    requires !l.End?
    ensures Width(l) in {2, 4, 8}
  {
    match l case U16(_) => 2 case U32(_) => 4 case U64(_) => 8
  }

  function SizeOf(l: Layout): nat
  {
    if l.End? then 0 else Width(l) + SizeOf(l.rest)
  }

  function Fields(l: Layout): nat
  {
    if l.End? then 0 else 1 + Fields(l.rest)
  }

  /** Every value fits the width of its field. */
  predicate Representable(l: Layout, vs: seq<nat>)
  {
    if l.End? then vs == []
    else vs != [] && vs[0] < Pow256(Width(l)) && Representable(l.rest, vs[1..])
  }

  function Pack(l: Layout, vs: seq<nat>): (s: seq<byte>)
    requires |vs| == Fields(l)
    ensures |s| == SizeOf(l)
  {
    if l.End? then [] else LE(vs[0], Width(l)) + Pack(l.rest, vs[1..])
  }

  function Unpack(l: Layout, s: seq<byte>): (vs: seq<nat>)
    requires |s| >= SizeOf(l)
    ensures |vs| == Fields(l)
  {
    if l.End? then [] else [FromLE(s[..Width(l)])] + Unpack(l.rest, s[Width(l)..])
  }

  lemma UnpackField(l: Layout, head: seq<byte>, body: seq<byte>)
    requires !l.End? && |head| == Width(l) && |body| >= SizeOf(l.rest)
    ensures Unpack(l, head + body) == [FromLE(head)] + Unpack(l.rest, body)
  {
    assert (head + body)[..Width(l)] == head && (head + body)[Width(l)..] == body;
  }

  /** A first field holding `v`, the rest of the struct, and what follows it. */
  lemma FirstField(l: Layout, v: nat, head: seq<byte>, body: seq<byte>, tail: seq<byte>)
    requires !l.End? && |head| == Width(l) && FromLE(head) == v && |body| >= SizeOf(l.rest)
    ensures Unpack(l, head + body + tail) == [v] + Unpack(l.rest, body + tail)
  {
    UnpackField(l, head, body + tail);
    assert (head + body) + tail == head + (body + tail);
  }

  lemma {:induction false} UnpackPack(l: Layout, vs: seq<nat>, tail: seq<byte>)
    requires Representable(l, vs) && |vs| == Fields(l)
    ensures Unpack(l, Pack(l, vs) + tail) == vs
  {
    if !l.End? {
      FromLEofLE(vs[0], Width(l));
      FirstField(l, vs[0], LE(vs[0], Width(l)), Pack(l.rest, vs[1..]), tail);
      UnpackPack(l.rest, vs[1..], tail);
    }
  }

  // ----- values that fit, field by field

  lemma Fits(l: Layout, v: nat, vs: seq<nat>)
    requires !l.End? && v < Pow256(Width(l)) && Representable(l.rest, vs)
    ensures Representable(l, [v] + vs)
  {
    assert ([v] + vs)[1..] == vs;
  }

  lemma Powers()
    ensures Pow256(2) == 0x1_0000 && Pow256(4) == 0x1_0000_0000 && Pow256(8) == 0x1_0000_0000_0000_0000
  {
  }

  /** Five 32-bit fields in front of what fits. */
  lemma WordsFit(rest: Layout, a: u32, b: u32, c: u32, d: u32, e: u32, vs: seq<nat>)
    requires Representable(rest, vs)
    ensures Representable(U32(U32(U32(U32(U32(rest))))), [a, b, c, d, e] + vs)
  {
    Powers();
    Fits(U32(rest), e, vs);
    Fits(U32(U32(rest)), d, [e] + vs);
    Fits(U32(U32(U32(rest))), c, [d] + ([e] + vs));
    Fits(U32(U32(U32(U32(rest)))), b, [c] + ([d] + ([e] + vs)));
    Fits(U32(U32(U32(U32(U32(rest))))), a, [b] + ([c] + ([d] + ([e] + vs))));
    assert [a] + ([b] + ([c] + ([d] + ([e] + vs)))) == [a, b, c, d, e] + vs;
  }

  /** Three 64-bit fields in front of what fits. */
  lemma LongsFit(rest: Layout, a: u64, b: u64, c: u64, vs: seq<nat>)
    requires Representable(rest, vs)
    ensures Representable(U64(U64(U64(rest))), [a, b, c] + vs)
  {
    Powers();
    Fits(U64(rest), c, vs);
    Fits(U64(U64(rest)), b, [c] + vs);
    Fits(U64(U64(U64(rest))), a, [b] + ([c] + vs));
    assert [a] + ([b] + ([c] + vs)) == [a, b, c] + vs;
  }

  lemma {:induction false} UnpackRepresentable(l: Layout, s: seq<byte>)
    requires |s| >= SizeOf(l)
    ensures Representable(l, Unpack(l, s))
  {
    if !l.End? {
      FromLEBound(s[..Width(l)]);
      UnpackRepresentable(l.rest, s[Width(l)..]);
      assert Unpack(l, s)[1..] == Unpack(l.rest, s[Width(l)..]);
    }
  }

  lemma {:induction false} PackUnpack(l: Layout, s: seq<byte>)
    requires |s| == SizeOf(l)
    ensures Pack(l, Unpack(l, s)) == s
  {
    if !l.End? {
      var w := Width(l);
      LEofFromLE(s[..w]);
      PackUnpack(l.rest, s[w..]);
      assert Unpack(l, s)[1..] == Unpack(l.rest, s[w..]);
      assert s == s[..w] + s[w..];
    }
  }

  /** Only the bytes of the struct matter. */
  lemma {:induction false} UnpackPrefix(l: Layout, s: seq<byte>)
    requires |s| >= SizeOf(l)
    ensures Unpack(l, s) == Unpack(l, s[..SizeOf(l)])
  {
    if !l.End? {
      var w := Width(l);
      UnpackPrefix(l.rest, s[w..]);
      assert s[..SizeOf(l)][..w] == s[..w] && s[..SizeOf(l)][w..] == s[w..][..SizeOf(l.rest)];
    }
  }

  // ----- integers in their places

  /** The integer in the `w` bytes from `at` on. */
  function Int(s: seq<byte>, at: nat, w: nat): (r: nat)
    requires at + w <= |s|
    ensures r < Pow256(w)
  {
    FromLEBound(s[at..at + w]);
    FromLE(s[at..at + w])
  }

  function Int32(s: seq<byte>, at: nat): u32
    requires at + 4 <= |s|
  {
    Powers();
    Int(s, at, 4)
  }

  function Int64(s: seq<byte>, at: nat): u64
    requires at + 8 <= |s|
  {
    Powers();
    Int(s, at, 8)
  }

  /** The fields of a struct from `at` on: the first one, and the others behind it. */
  lemma FieldsAt(l: Layout, s: seq<byte>, at: nat)
    requires !l.End? && at + SizeOf(l) <= |s|
    ensures Unpack(l, s[at..])[0] == Int(s, at, Width(l))
    ensures Unpack(l, s[at..])[1..] == Unpack(l.rest, s[at + Width(l)..])
  {
    assert s[at..][..Width(l)] == s[at..at + Width(l)];
    assert s[at..][Width(l)..] == s[at + Width(l)..];
  }

  /** The fields from the n-th on are those from `at` on; the next two, and where the others start. */
  lemma PairAt(f: seq<nat>, n: nat, l: Layout, s: seq<byte>, at: nat)
    requires n <= |f| && !l.End? && !l.rest.End? && at + SizeOf(l) <= |s| && f[n..] == Unpack(l, s[at..])
    ensures n + 2 <= |f| && f[n] == Int(s, at, Width(l)) && f[n + 1] == Int(s, at + Width(l), Width(l.rest))
    ensures f[n + 2..] == Unpack(l.rest.rest, s[at + Width(l) + Width(l.rest)..])
  {
    FieldsAt(l, s, at);
    FieldsAt(l.rest, s, at + Width(l));
    assert f[n..][0] == f[n] && f[n..][1..][0] == f[n + 1];
    assert f[n..][1..][1..] == f[n + 2..];
  }

  /** The struct at the start. */
  lemma StructAt(l: Layout, body: seq<byte>)
    requires !l.End? && !l.rest.End? && |body| >= SizeOf(l)
    ensures var f := Unpack(l, body);
            && |f| >= 2 && f[0] == Int(body, 0, Width(l)) && f[1] == Int(body, Width(l), Width(l.rest))
            && f[2..] == Unpack(l.rest.rest, body[Width(l) + Width(l.rest)..])
  {
    var f := Unpack(l, body);
    assert body[0..] == body && f[0..] == f;
    PairAt(f, 0, l, body, 0);
  }
}
