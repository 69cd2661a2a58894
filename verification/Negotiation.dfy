/** The INIT handshake (src/session.rs, `negotiate_init`). */
module Negotiation {
  import opened Bytes
  import opened Protocol
  import opened Messages

  const MAX_WRITE := 262144
  const READ_BUF_SIZE := MAX_WRITE + 4096

  // FUSE_INIT flags
  const ASYNC_READ: bv32 := 0x1
  const ATOMIC_O_TRUNC: bv32 := 0x8
  const BIG_WRITES: bv32 := 0x20
  const DO_READDIRPLUS: bv32 := 0x2000
  const READDIRPLUS_AUTO: bv32 := 0x4000
  const NO_OPEN_SUPPORT: bv32 := 0x2_0000
  const MAX_PAGES: bv32 := 0x40_0000
  const NO_OPENDIR_SUPPORT: bv32 := 0x100_0000
  const INIT_FLAGS_ALL: bv32 := 0x142_6029

  datatype InitIn = InitIn(major: u32, minor: u32, maxReadahead: u32, flags: bv32)

  /** The fields of `fuse_init_out` that are not always zero. */
  datatype InitOut = InitOut(minor: u32, maxReadahead: u32, flags: bv32, maxPages: u16)

  function OfferedFlags(ops: Ops, maxPages: bool): bv32
  {
    ASYNC_READ | BIG_WRITES | ATOMIC_O_TRUNC | NO_OPENDIR_SUPPORT
    | (if ops.readdirplus then DO_READDIRPLUS | READDIRPLUS_AUTO else 0)
    | (if ops.open then 0 else NO_OPEN_SUPPORT)
    | (if maxPages then MAX_PAGES else 0)
  }

  /** `pageSize` is what `sysconf` says. */
  function NegotiateInit(init: InitIn, ops: Ops, pageSize: int): InitOut
  {
    var kernelFlags := init.flags & INIT_FLAGS_ALL;
    var paged := Has(kernelFlags, MAX_PAGES) && pageSize > 0;
    InitOut(if init.minor < FUSE_KERNEL_MINOR_VERSION then init.minor else FUSE_KERNEL_MINOR_VERSION,
            init.maxReadahead,
            OfferedFlags(ops, paged) & kernelFlags,
            if paged then MAX_WRITE / pageSize % 0x1_0000 else 0)
  }

  // ----- what is agreed on

  lemma MaskedBit(offered: bv32, kernel: bv32, bit: bv32)
    requires bit & INIT_FLAGS_ALL == bit
    ensures Has(offered & (kernel & INIT_FLAGS_ALL), bit) <==> Has(offered, bit) && Has(kernel, bit)
    ensures Has(kernel & INIT_FLAGS_ALL, bit) <==> Has(kernel, bit)
    ensures (offered & (kernel & INIT_FLAGS_ALL)) & kernel == offered & (kernel & INIT_FLAGS_ALL)
    ensures (offered & (kernel & INIT_FLAGS_ALL)) & INIT_FLAGS_ALL == offered & (kernel & INIT_FLAGS_ALL)
  {
  }

  lemma MaskKeeps(kernel: bv32, bit: bv32)
    requires bit & INIT_FLAGS_ALL == bit
    ensures Has(kernel & INIT_FLAGS_ALL, bit) <==> Has(kernel, bit)
  {
  }

  lemma OfferedBits(ops: Ops, maxPages: bool)
    ensures var f := OfferedFlags(ops, maxPages);
            && Has(f, ASYNC_READ) && Has(f, BIG_WRITES) && Has(f, ATOMIC_O_TRUNC) && Has(f, NO_OPENDIR_SUPPORT)
            && (Has(f, DO_READDIRPLUS) <==> ops.readdirplus) && (Has(f, READDIRPLUS_AUTO) <==> ops.readdirplus)
            && (Has(f, NO_OPEN_SUPPORT) <==> !ops.open) && (Has(f, MAX_PAGES) <==> maxPages)
  {
  }

  /** The flags that depend on the kernel alone; all are its own. */
  predicate FixedAgreed(kernel: bv32, f: bv32)
  {
    && f & kernel == f && f & INIT_FLAGS_ALL == f
    && (Has(f, ASYNC_READ) <==> Has(kernel, ASYNC_READ))
    && (Has(f, ATOMIC_O_TRUNC) <==> Has(kernel, ATOMIC_O_TRUNC))
    && (Has(f, BIG_WRITES) <==> Has(kernel, BIG_WRITES))
    && (Has(f, NO_OPENDIR_SUPPORT) <==> Has(kernel, NO_OPENDIR_SUPPORT))
  }

  /** The others say whether an operation is there, and whether there is a limit on pages. */
  predicate OptionalAgreed(ops: Ops, paged: bool, kernel: bv32, f: bv32)
  {
    && (Has(f, DO_READDIRPLUS) <==> ops.readdirplus && Has(kernel, DO_READDIRPLUS))
    && (Has(f, READDIRPLUS_AUTO) <==> ops.readdirplus && Has(kernel, READDIRPLUS_AUTO))
    && (Has(f, NO_OPEN_SUPPORT) <==> !ops.open && Has(kernel, NO_OPEN_SUPPORT))
    && (Has(f, MAX_PAGES) <==> paged && Has(kernel, MAX_PAGES))
  }

  /** The flags agreed on, bit by bit. */
  predicate Agreed(ops: Ops, pageSize: int, kernel: bv32, f: bv32)
  {
    FixedAgreed(kernel, f) && OptionalAgreed(ops, pageSize > 0, kernel, f)
  }

  /** Which leaves no choice. */
  lemma AgreedIsUnique(ops: Ops, pageSize: int, kernel: bv32, f: bv32, g: bv32)
    requires Agreed(ops, pageSize, kernel, f) && Agreed(ops, pageSize, kernel, g)
    ensures f == g
  {
  }

  /** What the masks leave of the flags offered. */
  function Masked(offered: bv32, kernel: bv32): bv32 { offered & (kernel & INIT_FLAGS_ALL) }

  lemma MaskedFixed(offered: bv32, kernel: bv32)
    requires Has(offered, ASYNC_READ) && Has(offered, ATOMIC_O_TRUNC) && Has(offered, BIG_WRITES)
    requires Has(offered, NO_OPENDIR_SUPPORT)
    ensures FixedAgreed(kernel, Masked(offered, kernel))
  {
    MaskedBit(offered, kernel, ASYNC_READ);
    MaskedBit(offered, kernel, ATOMIC_O_TRUNC);
    MaskedBit(offered, kernel, BIG_WRITES);
    MaskedBit(offered, kernel, NO_OPENDIR_SUPPORT);
  }

  lemma MaskedOptional(ops: Ops, paged: bool, offered: bv32, kernel: bv32)
    requires Has(offered, DO_READDIRPLUS) <==> ops.readdirplus
    requires Has(offered, READDIRPLUS_AUTO) <==> ops.readdirplus
    requires (Has(offered, NO_OPEN_SUPPORT) <==> !ops.open) && (Has(offered, MAX_PAGES) <==> paged)
    ensures OptionalAgreed(ops, paged, kernel, Masked(offered, kernel))
  {
    MaskedBit(offered, kernel, DO_READDIRPLUS);
    MaskedBit(offered, kernel, READDIRPLUS_AUTO);
    MaskedBit(offered, kernel, NO_OPEN_SUPPORT);
    MaskedBit(offered, kernel, MAX_PAGES);
  }

  lemma OfferedAgree(ops: Ops, paged: bool, kernel: bv32)
    ensures FixedAgreed(kernel, Masked(OfferedFlags(ops, paged), kernel))
    ensures OptionalAgreed(ops, paged, kernel, Masked(OfferedFlags(ops, paged), kernel))
  {
    OfferedBits(ops, paged);
    MaskedFixed(OfferedFlags(ops, paged), kernel);
    MaskedOptional(ops, paged, OfferedFlags(ops, paged), kernel);
  }

  /** The flags negotiated are the ones agreed on. */
  lemma FlagsAgree(init: InitIn, ops: Ops, pageSize: int)
    ensures Agreed(ops, pageSize, init.flags, NegotiateInit(init, ops, pageSize).flags)
  {
    FlagsNegotiated(init, ops, pageSize);
    OfferedAgree(ops, Has(init.flags, MAX_PAGES) && pageSize > 0, init.flags);
  }

  lemma FlagsNegotiated(init: InitIn, ops: Ops, pageSize: int)
    ensures NegotiateInit(init, ops, pageSize).flags ==
              Masked(OfferedFlags(ops, Has(init.flags, MAX_PAGES) && pageSize > 0), init.flags)
  {
    MaskKeeps(init.flags, MAX_PAGES);
  }

  lemma PagesNegotiated(init: InitIn, ops: Ops, pageSize: int)
    ensures NegotiateInit(init, ops, pageSize).maxPages ==
              if Has(init.flags, MAX_PAGES) && pageSize > 0 then MAX_WRITE / pageSize % 0x1_0000 else 0
  {
    MaskKeeps(init.flags, MAX_PAGES);
  }

  /** Pages are limited so that no write outgrows `MAX_WRITE`; the limit is the full one exactly for
      page sizes whose count of pages fits 16 bits. */
  lemma PagesAgree(init: InitIn, ops: Ops, pageSize: int)
    ensures var out := NegotiateInit(init, ops, pageSize);
            && (!Has(init.flags, MAX_PAGES) || pageSize <= 0 ==> out.maxPages == 0)
            && (pageSize > 0 ==> out.maxPages * pageSize <= MAX_WRITE)
            && (pageSize > 0 && Has(init.flags, MAX_PAGES) ==>
                  (out.maxPages == MAX_WRITE / pageSize <==> pageSize >= 5))
  {
    PagesNegotiated(init, ops, pageSize);
    CountOfPages(NegotiateInit(init, ops, pageSize).maxPages, Has(init.flags, MAX_PAGES), pageSize);
  }

  lemma CountOfPages(maxPages: nat, wanted: bool, pageSize: int)
    requires maxPages == if wanted && pageSize > 0 then MAX_WRITE / pageSize % 0x1_0000 else 0
    ensures !wanted || pageSize <= 0 ==> maxPages == 0
    ensures pageSize > 0 ==> maxPages * pageSize <= MAX_WRITE
    ensures pageSize > 0 && wanted ==> (maxPages == MAX_WRITE / pageSize <==> pageSize >= 5)
  {
    if pageSize > 0 { QuotientFits(pageSize); }
  }

  lemma QuotientFits(pageSize: int)
    requires pageSize > 0
    ensures MAX_WRITE / pageSize % 0x1_0000 * pageSize <= MAX_WRITE
    ensures MAX_WRITE / pageSize < 0x1_0000 <==> pageSize >= 5
  {
    var q := MAX_WRITE / pageSize;
    var r := q % 0x1_0000;
    assert q * pageSize <= MAX_WRITE < q * pageSize + pageSize;
    Times(r, q, pageSize);
    if pageSize >= 5 { Times(5, pageSize, q); } else { Times(pageSize, 4, q); }
  }

  lemma Times(a: nat, b: nat, c: nat)
    requires a <= b
    ensures a * c <= b * c && c * a <= c * b
  {
  }

  /** Any write the kernel may send fits the read buffer behind its two headers. */
  lemma WritesFitBuffer(size: nat)
    ensures size <= MAX_WRITE ==> WRITE_DATA_OFFSET + size <= READ_BUF_SIZE
    ensures FUSE_MIN_READ_BUFFER <= READ_BUF_SIZE
    ensures WRITE_DATA_OFFSET == SizeOf(IN_HEADER) + SizeOf(WRITE_IN)
  {
    WireStructSizes();
  }

  /** The fields of `fuse_init_out` in wire order. */
  function InitOutFields(out: InitOut): (r: seq<nat>)
    ensures |r| == 24
  {
    [FUSE_KERNEL_VERSION, out.minor, out.maxReadahead, out.flags as nat, 0, 0, MAX_WRITE, 1, out.maxPages, 0, 0, 0, 0]
    + [0, 0, 0, 0, 0, 0, 0, 0, 0, 0, 0]
  }

  function InitOutBytes(out: InitOut): (s: seq<byte>)
    ensures |s| == 64
  {
    InitOutShape();
    Pack(INIT_OUT, InitOutFields(out))
  }

  lemma UnusedFits()
    ensures Representable(UNUSED_11, [0, 0, 0, 0, 0, 0, 0, 0, 0, 0, 0])
  {
    var five: seq<nat> := [0, 0, 0, 0, 0];
    var l5 := U16(U16(U16(U16(U16(End)))));
    HalvesFit(End, []);
    HalvesFit(l5, five + []);
    Powers();
    Fits(UNUSED_11, 0, five + (five + []));
    assert [0] + (five + (five + [])) == [0, 0, 0, 0, 0, 0, 0, 0, 0, 0, 0];
  }

  /** Five zero 16-bit fields in front of what fits. */
  lemma HalvesFit(rest: Layout, vs: seq<nat>)
    requires Representable(rest, vs)
    ensures Representable(U16(U16(U16(U16(U16(rest))))), [0, 0, 0, 0, 0] + vs)
  {
    Powers();
    Fits(U16(rest), 0, vs);
    Fits(U16(U16(rest)), 0, [0] + vs);
    Fits(U16(U16(U16(rest))), 0, [0] + ([0] + vs));
    Fits(U16(U16(U16(U16(rest)))), 0, [0] + ([0] + ([0] + vs)));
    Fits(U16(U16(U16(U16(U16(rest))))), 0, [0] + ([0] + ([0] + ([0] + vs))));
    assert [0] + ([0] + ([0] + ([0] + ([0] + vs)))) == [0, 0, 0, 0, 0] + vs;
  }

  /** max_pages and what follows it. */
  lemma InitTailFits(maxPages: u16)
    ensures Representable(U16(U16(U32(U32(U16(UNUSED_11))))),
                          [maxPages, 0, 0, 0, 0] + [0, 0, 0, 0, 0, 0, 0, 0, 0, 0, 0])
  {
    var unused: seq<nat> := [0, 0, 0, 0, 0, 0, 0, 0, 0, 0, 0];
    Powers();
    UnusedFits();
    Fits(U16(UNUSED_11), 0, unused);
    Fits(U32(U16(UNUSED_11)), 0, [0] + unused);
    Fits(U32(U32(U16(UNUSED_11))), 0, [0] + ([0] + unused));
    Fits(U16(U32(U32(U16(UNUSED_11)))), 0, [0] + ([0] + ([0] + unused)));
    Fits(U16(U16(U32(U32(U16(UNUSED_11))))), maxPages, [0] + ([0] + ([0] + ([0] + unused))));
    assert [maxPages] + ([0] + ([0] + ([0] + ([0] + unused)))) == [maxPages, 0, 0, 0, 0] + unused;
  }

  /** max_background to time_gran, and what follows them. */
  lemma InitLimitsFit(maxPages: u16)
    ensures Representable(U16(U16(U32(U32(U16(U16(U32(U32(U16(UNUSED_11))))))))),
                          [0, 0, MAX_WRITE, 1] + ([maxPages, 0, 0, 0, 0] + [0, 0, 0, 0, 0, 0, 0, 0, 0, 0, 0]))
  {
    var tail: seq<nat> := [maxPages, 0, 0, 0, 0] + [0, 0, 0, 0, 0, 0, 0, 0, 0, 0, 0];
    var l := U16(U16(U32(U32(U16(UNUSED_11)))));
    Powers();
    InitTailFits(maxPages);
    Fits(U32(l), 1, tail);
    Fits(U32(U32(l)), MAX_WRITE, [1] + tail);
    Fits(U16(U32(U32(l))), 0, [MAX_WRITE] + ([1] + tail));
    Fits(U16(U16(U32(U32(l)))), 0, [0] + ([MAX_WRITE] + ([1] + tail)));
    assert [0] + ([0] + ([MAX_WRITE] + ([1] + tail))) == [0, 0, MAX_WRITE, 1] + tail;
  }

  lemma InitHeadFits(rest: Layout, a: u32, b: u32, c: u32, d: u32, vs: seq<nat>)
    requires Representable(rest, vs)
    ensures Representable(U32(U32(U32(U32(rest)))), [a, b, c, d] + vs)
  {
    Powers();
    Fits(U32(rest), d, vs);
    Fits(U32(U32(rest)), c, [d] + vs);
    Fits(U32(U32(U32(rest))), b, [c] + ([d] + vs));
    Fits(U32(U32(U32(U32(rest)))), a, [b] + ([c] + ([d] + vs)));
    assert [a] + ([b] + ([c] + ([d] + vs))) == [a, b, c, d] + vs;
  }

  lemma InitFits(out: InitOut)
    ensures Representable(INIT_OUT, InitOutFields(out))
  {
    var limits: seq<nat> := [0, 0, MAX_WRITE, 1] + ([out.maxPages, 0, 0, 0, 0] + [0, 0, 0, 0, 0, 0, 0, 0, 0, 0, 0]);
    var l := U16(U16(U32(U32(U16(U16(U32(U32(U16(UNUSED_11)))))))));
    InitLimitsFit(out.maxPages);
    InitHeadFits(l, FUSE_KERNEL_VERSION, out.minor, out.maxReadahead, out.flags as nat, limits);
    assert [FUSE_KERNEL_VERSION, out.minor, out.maxReadahead, out.flags as nat] + limits == InitOutFields(out);
  }

  /** What the kernel reads in the INIT reply: the version, what was negotiated, and how long a write may be. */
  lemma InitReadsBack(out: InitOut)
    ensures SizeOf(INIT_OUT) == 64 && Fields(INIT_OUT) == 24
    ensures var f := Unpack(INIT_OUT, InitOutBytes(out));
            && f[0] == FUSE_KERNEL_VERSION && f[1] == out.minor && f[2] == out.maxReadahead
            && f[3] == out.flags as nat && f[6] == MAX_WRITE && f[7] == 1 && f[8] == out.maxPages
  {
    InitOutShape();
    InitFits(out);
    UnpackPack(INIT_OUT, InitOutFields(out), []);
    assert InitOutBytes(out) + [] == InitOutBytes(out);
  }
}
