/** Runs of reads, writes and truncations of examples/tmpfs/block_file.rs against a flat byte sequence. */
module BlockRuns {
  import opened Bytes
  import opened BlockFiles

  // ----- files of at most one extent

  /** Room for a write: no longer than `max`, within `max` of where the extent starts, not below it. */
  predicate HasRoom(base: Option<nat>, offset: nat, n: nat, max: nat)
  {
    n <= max && (base.Some? ==> base.value <= offset && offset + n <= base.value + max)
  }

  function Base(xs: seq<Extent>): Option<nat>
  {
    if xs == [] then None else Some(xs[0].offset)
  }

  /** A write with room leaves one extent, starting where it did. */
  lemma FittingShape(x: Extent, buf: seq<byte>, offset: nat, block: nat, max: nat, stack: nat)
    requires block > 0 && Aligned(max, block)
    requires x.offset <= offset && offset + |buf| <= x.offset + max
    ensures WriteAt([x], buf, offset, block, max, stack).Done?
    ensures var ys := WriteAt([x], buf, offset, block, max, stack).value;
            |ys| == 1 && ys[0].offset == x.offset && ys == [ys[0]]
  {
    RoundUpAbove(|buf|, max, block);
    StartIsLast([x], offset);
    SearchLocates([x], offset);
    RoundUpAbove(offset - x.offset + |buf|, max, block);
  }

  // ----- writes longer than the maximum

  lemma {:induction false} SameOffsetsSameSearch(xs: seq<Extent>, ys: seq<Extent>, offset: nat, a: int, b: int)
    requires -1 <= a < b <= |xs| == |ys| && forall k :: 0 <= k < |xs| ==> ys[k].offset == xs[k].offset
    ensures SearchFrom(ys, offset, Low, a, b) == SearchFrom(xs, offset, Low, a, b)
    decreases b - a
  {
    if b - a > 1 {
      var i := a + (b - a) / 2;
      SameOffsetsSameSearch(xs, ys, offset, a, i);
      SameOffsetsSameSearch(xs, ys, offset, i, b);
    }
  }

  /** An empty write at the maximum of the last extent only pads it. */
  lemma PaddingKeepsOffsets(xs: seq<Extent>, offset: nat, block: nat, max: nat, stack: nat)
    requires block > 0 && Aligned(max, block) && xs != []
    requires Start(xs, offset) == |xs| - 1 && offset == xs[|xs| - 1].offset + max
    ensures WriteAt(xs, [], offset, block, max, stack).Done?
    ensures var ys := WriteAt(xs, [], offset, block, max, stack).value;
            |ys| == |xs| && forall k :: 0 <= k < |xs| ==> ys[k].offset == xs[k].offset
  {
    RoundUpAbove(0, max, block);
    RoundUpAbove(max, max, block);
    StartIsLast(xs, offset);
  }

  /** A write that lands a maximum or more behind the start of the last extent recurses on the same
      offset, or underflows. */
  lemma {:induction false} StuckNeverDone(xs: seq<Extent>, buf: seq<byte>, offset: nat, block: nat, max: nat,
          stack: nat)
    requires block > 0 && Aligned(max, block) && 0 < |buf| <= max && xs != []
    requires Start(xs, offset) == |xs| - 1 && xs[|xs| - 1].offset + max <= offset
    ensures !WriteAt(xs, buf, offset, block, max, stack).Done?
    decreases stack
  {
    var inOfs := offset - xs[|xs| - 1].offset;
    RoundUpAbove(|buf|, max, block);
    RoundUpAbove(inOfs + |buf|, max, block);
    StartIsLast(xs, offset);
    if inOfs == max && stack > 0 {
      PaddingKeepsOffsets(xs, offset, block, max, stack - 1);
      var ys := WriteAt(xs, [], offset, block, max, stack - 1).value;
      SameOffsetsSameSearch(xs, ys, offset, -1, |xs|);
      StuckNeverDone(ys, buf, offset, block, max, stack - 1);
      assert buf[..0] == [] && buf[0..] == buf;
    }
  }

  lemma LastIsStart(xs: seq<Extent>, offset: nat)
    requires Sorted(xs) && xs != [] && xs[|xs| - 1].offset <= offset
    ensures Start(xs, offset) == |xs| - 1
  {
    SearchLocates(xs, offset);
  }

  /** A write that ends at the maximum of the last extent fills it up. */
  lemma FillingKeepsOffsets(xs: seq<Extent>, buf: seq<byte>, offset: nat, block: nat, max: nat, stack: nat)
    requires block > 0 && Aligned(max, block) && Sorted(xs) && xs != []
    requires xs[|xs| - 1].offset <= offset && offset + |buf| == xs[|xs| - 1].offset + max
    ensures WriteAt(xs, buf, offset, block, max, stack).Done?
    ensures var ys := WriteAt(xs, buf, offset, block, max, stack).value;
            |ys| == |xs| && forall k :: 0 <= k < |xs| ==> ys[k].offset == xs[k].offset
  {
    LastIsStart(xs, offset);
    RoundUpAbove(|buf|, max, block);
    RoundUpAbove(max, max, block);
  }

  /** Growing the last extent of a file past the maximum recurses on the same offset until the stack is
      gone, or underflows. */
  lemma OverlongNeverDone(xs: seq<Extent>, buf: seq<byte>, offset: nat, block: nat, max: nat, stack: nat)
    requires block > 0 && Aligned(max, block) && Sorted(xs) && xs != []
    requires xs[|xs| - 1].offset <= offset && |buf| <= max && offset + |buf| > xs[|xs| - 1].offset + max
    ensures !WriteAt(xs, buf, offset, block, max, stack).Done?
  {
    var limit := xs[|xs| - 1].offset + max;
    LastIsStart(xs, offset);
    RoundUpAbove(|buf|, max, block);
    RoundUpAbove(offset - xs[|xs| - 1].offset + |buf|, max, block);
    if offset <= limit && stack > 0 { FilledNeverDone(xs, buf, offset, block, max, stack - 1); }
  }

  /** What is left once the extent is full is written at its end over and over. */
  lemma FilledNeverDone(xs: seq<Extent>, buf: seq<byte>, offset: nat, block: nat, max: nat, stack: nat)
    requires block > 0 && Aligned(max, block) && Sorted(xs) && xs != [] && |buf| <= max
    requires xs[|xs| - 1].offset <= offset <= xs[|xs| - 1].offset + max < offset + |buf|
    ensures var limit := xs[|xs| - 1].offset + max;
            var first := WriteAt(xs, buf[..limit - offset], offset, block, max, stack);
            && first.Done?
            && !WriteAt(first.value, buf[limit - offset..], limit, block, max, stack).Done?
  {
    var limit := xs[|xs| - 1].offset + max;
    FillingKeepsOffsets(xs, buf[..limit - offset], offset, block, max, stack);
    var ys := WriteAt(xs, buf[..limit - offset], offset, block, max, stack).value;
    LastIsStart(xs, limit);
    SameOffsetsSameSearch(xs, ys, limit, -1, |xs|);
    StuckNeverDone(ys, buf[limit - offset..], limit, block, max, stack);
  }

  /** A list a low write has put out of order: everything behind the first extent starts below it, and
      a maximum or more before `p`. */
  predicate Disordered(xs: seq<Extent>, first: nat, p: nat, max: nat)
  {
    && |xs| >= 2 && xs[0].offset == first && xs[1].End() <= p
    && forall j :: 1 <= j < |xs| ==> xs[j].offset < first && xs[j].offset + max <= p
  }

  lemma DisorderedStart(xs: seq<Extent>, first: nat, p: nat, max: nat)
    requires Disordered(xs, first, p, max) && max > 0
    ensures Start(xs, p) == -1 ==> p < first
    ensures Start(xs, p) == 0 ==> p == first
    ensures Start(xs, p) in {-1, 0, |xs| - 1}
  {
    SearchLocates(xs, p);
  }

  /** Writing a chunk at the first extent cannot merge with what is behind it. */
  lemma ChunkAtFirst(xs: seq<Extent>, first: nat, chunk: seq<byte>, block: nat, max: nat)
    requires block > 0 && Disordered(xs, first, first, max) && |chunk| > 0
    ensures var r := WriteInto(xs, 0, chunk, first, block);
            r.Done? ==> |r.value| == |xs| && r.value[0].offset == first && r.value[1..] == xs[1..]
  {
    if |xs[0].data| < |chunk| {
      var over := first + |chunk|;
      assert over - xs[1].offset > |xs[1].data|;
    }
  }

  lemma ChunkKeepsDisorder(xs: seq<Extent>, first: nat, chunk: seq<byte>, p: nat, block: nat, max: nat, stack: nat)
    requires block > 0 && Aligned(max, block) && 0 < |chunk| <= max && Disordered(xs, first, p, max)
    ensures var r := WriteAt(xs, chunk, p, block, max, stack);
            r.Done? ==> |r.value| >= 2 && r.value[0].offset == first && r.value[1] == xs[1]
                        && (|chunk| == max ==> Disordered(r.value, first, p + max, max))
  {
    DisorderedStart(xs, first, p, max);
    RoundUpAbove(|chunk|, max, block);
    StartIsLast(xs, p);
    var r := WriteAt(xs, chunk, p, block, max, stack);
    if Start(xs, p) == |xs| - 1 {
      StuckNeverDone(xs, chunk, p, block, max, stack);
    } else if Start(xs, p) == 0 {
      ChunkAtFirst(xs, first, chunk, block, max);
      if r.Done? {
        assert forall j :: 1 <= j < |xs| ==> r.value[j] == r.value[1..][j - 1] == xs[1..][j - 1] == xs[j];
      }
    } else {
      assert r == Done(xs + [NewExtent(chunk, p, block)]);
    }
  }

  /** Nothing brings such a list into order again. */
  lemma {:induction false} ChunksKeepDisorder(xs: seq<Extent>, first: nat, buf: seq<byte>, p: nat, block: nat,
          max: nat, stack: nat)
    requires block > 0 && max > 0 && Aligned(max, block) && Disordered(xs, first, p, max)
    ensures var r := WriteChunks(xs, buf, p, block, max, stack); r.Done? ==> !Sorted(r.value)
    decreases |buf|
  {
    if buf == [] || stack == 0 {
      assert xs[1].offset < xs[0].offset;
    } else {
      var n := Min(max, |buf|);
      ChunkKeepsDisorder(xs, first, buf[..n], p, block, max, stack - 1);
      var r := WriteAt(xs, buf[..n], p, block, max, stack - 1);
      if r.Done? {
        if n == max {
          ChunksKeepDisorder(r.value, first, buf[n..], p + n, block, max, stack);
        } else {
          assert buf[n..] == [];
          assert r.value[1].offset < r.value[0].offset;
        }
      }
    }
  }

  /** A chunk behind a lone extent that is full up to the maximum. */
  lemma NextChunkStuck(x: Extent, rest: seq<byte>, p: nat, block: nat, max: nat, stack: nat)
    requires block > 0 && max > 0 && Aligned(max, block) && rest != [] && x.offset + max <= p
    ensures !WriteChunks([x], rest, p, block, max, stack).Done?
  {
    if stack > 0 {
      StartIsLast([x], p);
      SearchLocates([x], p);
      StuckNeverDone([x], rest[..Min(max, |rest|)], p, block, max, stack - 1);
    }
  }

  lemma LowWritePushes(x: Extent, buf: seq<byte>, offset: nat, block: nat, max: nat, stack: nat)
    requires block > 0 && Aligned(max, block) && |buf| <= max && offset < x.offset
    ensures WriteAt([x], buf, offset, block, max, stack) == Done([x, NewExtent(buf, offset, block)])
    ensures WriteAt([x], buf, offset, block, max, stack).Done?
    ensures Size(WriteAt([x], buf, offset, block, max, stack).value) == offset + |buf|
  {
    StartIsLast([x], offset);
    SearchLocates([x], offset);
    RoundUpAbove(|buf|, max, block);
    assert [x] + [NewExtent(buf, offset, block)] == [x, NewExtent(buf, offset, block)];
  }

  lemma LowLongNeverSorted(x: Extent, buf: seq<byte>, offset: nat, block: nat, max: nat, stack: nat)
    requires block > 0 && max > 0 && stack > 0 && Aligned(max, block) && |buf| > max && offset < x.offset
    ensures var r := WriteChunks([x], buf, offset, block, max, stack); r.Done? ==> !Sorted(r.value)
  {
    var head := buf[..max];
    LowWritePushes(x, head, offset, block, max, stack - 1);
    ChunksKeepDisorder([x, NewExtent(head, offset, block)], x.offset, buf[max..], offset + max, block, max, stack);
  }

  // ----- a low write in chunks

  /** Three extents of which the last two start below `p`: the bisection never looks at the first. */
  lemma ThreeStart(xs: seq<Extent>, p: nat)
    requires |xs| == 3 && xs[1].offset < p && xs[2].offset < p
    ensures Start(xs, p) == 2
  {
    assert SearchFrom(xs, p, Low, -1, 3) == SearchFrom(xs, p, Low, 1, 3) == SearchFrom(xs, p, Low, 2, 3) == Between(2);
  }

  lemma TwoStart(xs: seq<Extent>, p: nat)
    requires |xs| == 2 && xs[1].offset < p
    ensures Start(xs, p) == if p < xs[0].offset then -1 else if p == xs[0].offset then 0 else 1
  {
    assert SearchFrom(xs, p, Low, -1, 2) ==
           if p < xs[0].offset then SearchFrom(xs, p, Low, -1, 0)
           else if p > xs[0].offset then SearchFrom(xs, p, Low, 0, 2) else Exact(0);
    assert p > xs[0].offset ==> SearchFrom(xs, p, Low, 0, 2) == SearchFrom(xs, p, Low, 1, 2) == Between(1);
  }

  /** What is left of a low write when its first chunk has been pushed. */
  lemma SecondChunk(x: Extent, e: Extent, rest: seq<byte>, p: nat, block: nat, max: nat, stack: nat)
    requires block > 0 && max > 0 && stack > 0 && Aligned(max, block) && rest != []
    requires e.offset < x.offset && e.offset + max <= p && e.End() == p
    ensures p < x.offset && |rest| <= max ==>
              WriteChunks([x, e], rest, p, block, max, stack) == Done([x, e, NewExtent(rest, p, block)])
    ensures p < x.offset && |rest| > max ==> !WriteChunks([x, e], rest, p, block, max, stack).Done?
    ensures p > x.offset ==> !WriteChunks([x, e], rest, p, block, max, stack).Done?
    ensures var r := WriteChunks([x, e], rest, p, block, max, stack);
            p == x.offset && r.Done? ==> Size(r.value) == p
  {
    var xs, n := [x, e], Min(max, |rest|);
    var chunk := rest[..n];
    TwoStart(xs, p);
    RoundUpAbove(n, max, block);
    StartIsLast(xs, p);
    if p > x.offset {
      StuckNeverDone(xs, chunk, p, block, max, stack - 1);
    } else if p < x.offset {
      var ys := [x, e, NewExtent(chunk, p, block)];
      assert xs + [NewExtent(chunk, p, block)] == ys;
      assert WriteAt(xs, chunk, p, block, max, stack - 1) == Done(ys);
      if |rest| > max {
        ThirdChunk(ys, rest[n..], p + n, block, max, stack);
      } else {
        assert rest[n..] == [] && chunk == rest;
      }
    } else {
      ChunkInFirst(x, e, chunk, block);
      var r := WriteAt(xs, chunk, p, block, max, stack - 1);
      RoundUpAbove(|chunk|, max, block);
      assert r == WriteInto(xs, 0, chunk, p, block);
      if r.Done? && |rest| > max {
        TwoStart(r.value, p + max);
        StuckChunk(r.value, rest[n..], p + max, block, max, stack);
      }
    }
  }

  /** A chunk written where the first extent starts stays in it or cannot merge. */
  lemma ChunkInFirst(x: Extent, e: Extent, chunk: seq<byte>, block: nat)
    requires block > 0 && |chunk| > 0 && e.offset < x.offset && e.End() == x.offset
    ensures var r := WriteInto([x, e], 0, chunk, x.offset, block);
            r.Done? ==> |r.value| == 2 && r.value[0].offset == x.offset && r.value[1] == e && |chunk| <= |x.data|
  {
    if |x.data| < |chunk| {
      assert x.offset + |chunk| - e.offset > |e.data|;
    }
  }

  lemma StuckChunk(xs: seq<Extent>, rest: seq<byte>, p: nat, block: nat, max: nat, stack: nat)
    requires block > 0 && max > 0 && Aligned(max, block) && rest != [] && xs != []
    requires Start(xs, p) == |xs| - 1 && xs[|xs| - 1].offset + max <= p
    ensures !WriteChunks(xs, rest, p, block, max, stack).Done?
  {
    if stack > 0 {
      StuckNeverDone(xs, rest[..Min(max, |rest|)], p, block, max, stack - 1);
    }
  }

  lemma ThirdChunk(xs: seq<Extent>, rest: seq<byte>, p: nat, block: nat, max: nat, stack: nat)
    requires block > 0 && max > 0 && Aligned(max, block) && rest != [] && |xs| == 3
    requires xs[1].offset < p && xs[2].offset + max <= p
    ensures !WriteChunks(xs, rest, p, block, max, stack).Done?
  {
    ThreeStart(xs, p);
    StuckChunk(xs, rest, p, block, max, stack);
  }

  // ----- what a file reads as after a low write

  /** Every read up to the end succeeds and returns its part of `f`. */
  ghost predicate ReadsThroughout(xs: seq<Extent>, f: seq<byte>)
  {
    && Size(xs) == |f|
    && forall offset: nat, n: nat :: offset <= |f| ==> ReadResult(xs, offset, n) == Some(Part(f, offset, n))
  }

  lemma ThroughoutReadsAs(xs: seq<Extent>, f: seq<byte>)
    requires ReadsThroughout(xs, f)
    ensures ReadsAs(xs, f)
  {
    assert Part(f, 0, |f|) == f;
    assert forall offset: nat, n: nat :: ReadsPart(xs, f, offset, n);
  }

  /** Pushed as one extent: all reads succeed. */
  lemma OnePushThroughout(x: Extent, buf: seq<byte>, offset: nat, block: nat)
    requires block > 0 && offset < x.offset && Repeats([x], buf, offset)
    ensures ReadsThroughout([x, NewExtent(buf, offset, block)], FlatWrite(Flat([x]), offset, buf))
  {
    var e, f := NewExtent(buf, offset, block), FlatWrite(Flat([x]), offset, buf);
    assert [x] + [e] == [x, e];
    LowWriteExactly([x], buf, offset, block);
    forall p: nat, n: nat | p <= |f| ensures ReadResult([x, e], p, n) == Some(Part(f, p, n)) {
      assert ReadsPart([x, e], f, p, n);
      ReadPushed([x], e, p, n);
      StartIsLast([x], p);
    }
  }

  /** The bisection among three extents of which the first starts last. */
  lemma ThreeSearch(x: Extent, e: Extent, d: Extent, p: nat)
    requires e.offset < d.offset < x.offset
    ensures Search([x, e, d], p, Low) ==
              if p < e.offset then Between(-1) else if p == e.offset then Exact(1)
              else if p < d.offset then Between(1) else if p == d.offset then Exact(2) else Between(2)
  {
    var ys := [x, e, d];
    assert p < e.offset ==>
        SearchFrom(ys, p, Low, -1, 3) == SearchFrom(ys, p, Low, -1, 1) == SearchFrom(ys, p, Low, -1, 0);
    assert p > e.offset ==> SearchFrom(ys, p, Low, -1, 3) == SearchFrom(ys, p, Low, 1, 3);
    assert e.offset < p < d.offset ==> SearchFrom(ys, p, Low, 1, 3) == SearchFrom(ys, p, Low, 1, 2);
    assert p > d.offset ==> SearchFrom(ys, p, Low, 1, 3) == SearchFrom(ys, p, Low, 2, 3);
  }

  /** A read among two chunks: from the first one on both are read, from the second one on only that. */
  lemma ReadTwoChunks(x: Extent, e: Extent, d: Extent, p: nat, n: nat)
    requires e.offset < d.offset < x.offset && d.offset <= e.End() < d.End() && e.offset <= p <= d.End()
    ensures ReadResult([x, e, d], p, n) ==
              Some((if p < d.offset then (e.data + d.data[e.End() - d.offset..])[p - e.offset..]
                    else d.data[p - d.offset..])[..Min(n, d.End() - p)])
  {
    var ys, m := [x, e, d], Min(n, d.End() - p);
    ThreeSearch(x, e, d, p);
    assert ys == [x, e] + [d] && Size(ys) == d.End();
    assert FirstRead(ys, p) == Some(if p < d.offset then 1 else 2);
    if p < d.offset {
      ReadFirstChunk(x, e, d, p, m);
    } else {
      ReadPushedExtent([x, e], d, p, m, []);
      assert [] + d.data[p - d.offset..][..m] == d.data[p - d.offset..][..m];
    }
  }

  lemma ReadFirstChunk(x: Extent, e: Extent, d: Extent, p: nat, m: nat)
    requires e.offset <= p < d.offset <= e.End() < d.End() && p + m <= d.End()
    ensures ReadFrom([x, e, d], 1, p, m, []) == Some((e.data + d.data[e.End() - d.offset..])[p - e.offset..][..m])
  {
    var ys, q := [x, e, d], e.End();
    var w := e.data[p - e.offset..][..Min(q - p, m)];
    assert ys == [x, e] + [d] && [] + w == w;
    assert ReadFrom(ys, 1, p, m, []) == ReadFrom(ys, 2, p + |w|, m - |w|, w);
    JoinChunks(e.data, d.data, p - e.offset, q - d.offset, m);
    if m <= q - p {
      ReadFromNothing(ys, 2, p + m, w);
      assert w + [] == w;
    } else {
      ReadPushedExtent([x, e], d, q, m - |w|, w);
    }
  }

  lemma JoinChunks(a: seq<byte>, b: seq<byte>, from: nat, skip: nat, m: nat)
    requires from <= |a| && skip <= |b| && from + m <= |a| + |b| - skip
    ensures (a + b[skip..])[from..][..m] ==
              a[from..][..Min(|a| - from, m)] + (if m <= |a| - from then [] else b[skip..][..m - (|a| - from)])
  {
  }

  /** A file whose first chunk does not start at 0 cannot even be read from the start. */
  lemma HighChunksPanic(x: Extent, e: Extent, d: Extent)
    requires 0 < e.offset < x.offset && e.End() < x.offset && x.End() <= d.End() && e.offset < d.offset
    ensures ReadResult([x, e, d], 0, d.End()).None?
  {
    var ys, m := [x, e, d], d.End();
    assert SearchFrom(ys, 0, Low, -1, 3) == SearchFrom(ys, 0, Low, -1, 1) == SearchFrom(ys, 0, Low, -1, 0)
           == Between(-1);
    assert FirstRead(ys, 0) == Some(0);
    var w := Zeros(x.offset) + x.data;
    assert x.data[..Min(|x.data|, m - x.offset)] == x.data && [] + w == w;
    assert ReadFrom(ys, 0, 0, m, []) == ReadFrom(ys, 1, x.End(), m - x.End(), w);
    assert Piece(e, x.End(), m - x.End()).None?;
  }

  lemma FlatBelow(x: Extent, buf: seq<byte>, offset: nat)
    requires offset < x.offset && x.End() <= offset + |buf|
    ensures FlatWrite(Flat([x]), offset, buf) == Zeros(offset) + buf
  {
    forall p | 0 <= p < offset ensures Flat([x])[p] == 0 {
      ByteAtGap([x], p);
    }
  }

  lemma ChunkOffsets(offset: nat, block: nat, max: nat)
    requires block > 0 && max > 0 && Aligned(max, block)
    ensures block <= max && RoundDown(offset, block) < RoundDown(offset + max, block)
    ensures RoundDown(offset, block) == 0 <==> offset < block
    ensures offset < block ==> RoundDown(offset + max, block) == max
  {
    RoundDownAligned(offset, block);
    RoundDownAligned(offset + max, block);
    AlignedSum(RoundDown(offset, block), max, block);
    SameAligned(RoundDown(offset + max, block), RoundDown(offset, block) + max, block);
    AlignedAtMost(block, max, block);
    if offset < block { SameAligned(RoundDown(offset, block), 0, block); }
  }

  /** Multiples of the block less than a block apart are one. */
  lemma SameAligned(a: nat, b: nat, block: nat)
    requires block > 0 && Aligned(a, block) && Aligned(b, block) && a < b + block && b < a + block
    ensures a == b
  {
    AlignedAtMost(a, b, block);
    AlignedAtMost(b, a, block);
  }

  /** A low write in two chunks reads right exactly if it starts in the first block, so that every read
      starts at one of its chunks and none at the extent, and if the bytes of the first chunk that the
      padding of the second one hides are zero. */
  lemma TwoPushesExactly(x: Extent, buf: seq<byte>, offset: nat, block: nat, max: nat)
    requires block > 0 && max > 0 && Aligned(max, block) && max < |buf| && offset + max < x.offset
    ensures var ys := [x, NewExtent(buf[..max], offset, block), NewExtent(buf[max..], offset + max, block)];
            var f, lucky := FlatWrite(Flat([x]), offset, buf), LuckyChunks(x, buf, offset, block, max);
            && (lucky ==> ReadsThroughout(ys, f))
            && (!lucky ==> !ReadsAs(ys, f))
  {
    var e, d := NewExtent(buf[..max], offset, block), NewExtent(buf[max..], offset + max, block);
    var f := FlatWrite(Flat([x]), offset, buf);
    ChunkOffsets(offset, block, max);
    assert Size([x, e, d]) == d.End() == offset + |buf|;
    if x.End() <= offset + |buf| {
      if offset < block {
        LowChunksExactly(x, e, d, buf, offset, block, max);
      } else {
        HighChunksPanic(x, e, d);
      }
    }
  }

  /** The condition just described. */
  predicate LuckyChunks(x: Extent, buf: seq<byte>, offset: nat, block: nat, max: nat)
    requires max < |buf|
  {
    x.End() <= offset + |buf| && offset < block && offset <= max && buf[max - offset..max] == Zeros(offset)
  }

  lemma LowChunksExactly(x: Extent, e: Extent, d: Extent, buf: seq<byte>, offset: nat, block: nat, max: nat)
    requires block > 0 && max > 0 && Aligned(max, block) && max < |buf| && offset + max < x.offset
    requires x.End() <= offset + |buf| && offset < block
    requires e == NewExtent(buf[..max], offset, block) && d == NewExtent(buf[max..], offset + max, block)
    ensures var f := FlatWrite(Flat([x]), offset, buf);
            && (LuckyChunks(x, buf, offset, block, max) ==> ReadsThroughout([x, e, d], f))
            && (!LuckyChunks(x, buf, offset, block, max) ==> !ReadsAs([x, e, d], f))
  {
    ChunkOffsets(offset, block, max);
    FlatBelow(x, buf, offset);
    ChunksAgainstWhole(buf, offset, max);
    if buf[max - offset..max] == Zeros(offset) {
      ChunksThroughout(x, e, d, Zeros(offset) + buf, offset, max);
    } else {
      ChunksDiffer(x, e, d, Zeros(offset) + buf, offset, max);
    }
  }

  lemma ChunksThroughout(x: Extent, e: Extent, d: Extent, f: seq<byte>, offset: nat, max: nat)
    requires e.offset == 0 < max == d.offset < x.offset && e.End() == offset + max
    requires d.offset <= e.End() < d.End() == |f|
    requires |d.data| >= offset && e.data + d.data[offset..] == f && d.data == f[max..]
    ensures ReadsThroughout([x, e, d], f)
  {
    forall p: nat, n: nat | p <= |f| ensures ReadResult([x, e, d], p, n) == Some(Part(f, p, n)) {
      var m := Min(n, |f| - p);
      ReadTwoChunks(x, e, d, p, n);
      assert if p < max then (e.data + d.data[offset..])[p..] == f[p..] else d.data[p - max..] == f[p..];
      assert f[p..][..m] == f[p..p + m];
    }
  }

  lemma ChunksDiffer(x: Extent, e: Extent, d: Extent, f: seq<byte>, offset: nat, max: nat)
    requires e.offset == 0 < max == d.offset < x.offset && e.End() == offset + max
    requires d.offset <= e.End() < d.End() == |f|
    requires |d.data| >= offset && d.data[..offset] == Zeros(offset) && f[max..max + offset] != Zeros(offset)
    ensures !ReadsAs([x, e, d], f)
  {
    ReadTwoChunks(x, e, d, max, offset);
    assert d.data[0..][..offset] == d.data[..offset];
    assert Part(f, max, offset) == f[max..max + offset];
    assert !ReadsPart([x, e, d], f, max, offset);
  }

  lemma ChunksAgainstWhole(buf: seq<byte>, offset: nat, max: nat)
    requires offset <= max < |buf|
    ensures var f, d := Zeros(offset) + buf, Zeros(offset) + buf[max..];
            && d[..offset] == Zeros(offset)
            && Zeros(offset) + buf[..max] + d[offset..] == f
            && f[max..max + offset] == buf[max - offset..max]
            && (buf[max - offset..max] == Zeros(offset) ==> d == f[max..])
  {
    var f := Zeros(offset) + buf;
    assert f[max..] == buf[max - offset..max] + buf[max..];
  }

  /** A write below a lone extent after which the file reads as it should: pushed as one extent it starts
      with everything the file holds from there on; pushed as two it is lucky in where it starts. */
  predicate LuckyLow(xs: seq<Extent>, buf: seq<byte>, offset: nat, block: nat, max: nat, stack: nat)
  {
    && xs != [] && offset < xs[0].offset
    && if |buf| <= max then Repeats(xs, buf, offset)
       else |buf| <= 2 * max && offset + max < xs[0].offset && stack > 0 && LuckyChunks(xs[0], buf, offset, block, max)
  }

  lemma LowLongExactly(x: Extent, buf: seq<byte>, offset: nat, block: nat, max: nat, stack: nat)
    requires block > 0 && max > 0 && stack > 0 && Aligned(max, block) && |buf| > max && offset < x.offset
    ensures var r, f := WriteChunks([x], buf, offset, block, max, stack), FlatWrite(Flat([x]), offset, buf);
            && (Wrote([x], buf, offset, r) <==> LuckyLow([x], buf, offset, block, max, stack))
            && (Wrote([x], buf, offset, r) ==> ReadsThroughout(r.value, f))
  {
    var head, rest := buf[..max], buf[max..];
    var e := NewExtent(head, offset, block);
    LowWritePushes(x, head, offset, block, max, stack - 1);
    assert WriteChunks([x], buf, offset, block, max, stack) ==
        WriteChunks([x, e], rest, offset + max, block, max, stack);
    SecondChunk(x, e, rest, offset + max, block, max, stack);
    if offset + max < x.offset && |rest| <= max {
      TwoPushesExactly(x, buf, offset, block, max);
      if LuckyChunks(x, buf, offset, block, max) {
        ThroughoutReadsAs([x, e, NewExtent(rest, offset + max, block)], FlatWrite(Flat([x]), offset, buf));
      }
    }
  }

  /** Elsewhere a write longer than the maximum never comes to an end. */
  lemma LongNeverDone(xs: seq<Extent>, buf: seq<byte>, offset: nat, block: nat, max: nat, stack: nat)
    requires block > 0 && Aligned(max, block) && |xs| <= 1 && |buf| > max
    requires xs != [] ==> xs[0].offset <= offset
    ensures !WriteAt(xs, buf, offset, block, max, stack).Done?
  {
    RoundUpAbove(|buf|, max, block);
    if max > 0 && stack > 0 {
      var head, rest := buf[..max], buf[max..];
      var r := WriteAt(xs, head, offset, block, max, stack - 1);
      RoundUpAbove(max, max, block);
      if xs == [] {
        StartIsLast([], offset);
        assert [] + [NewExtent(head, offset, block)] == [NewExtent(head, offset, block)];
        NextChunkStuck(r.value[0], rest, offset + max, block, max, stack);
      } else if offset == xs[0].offset {
        assert xs == [xs[0]];
        FittingShape(xs[0], head, offset, block, max, stack - 1);
        NextChunkStuck(r.value[0], rest, offset + max, block, max, stack);
      } else {
        OverlongNeverDone(xs, head, offset, block, max, stack - 1);
      }
    }
  }

  /** After a write longer than the maximum the file reads as it should exactly if it is lucky in this
      way, and the extents are never in order. */
  lemma LongWritesExactly(xs: seq<Extent>, buf: seq<byte>, offset: nat, block: nat, max: nat, stack: nat)
    requires block > 0 && Aligned(max, block) && WellFormed(xs, block) && |xs| <= 1 && |buf| > max
    ensures var r := WriteAt(xs, buf, offset, block, max, stack);
            && (Wrote(xs, buf, offset, r) <==> LuckyLow(xs, buf, offset, block, max, stack))
            && (Wrote(xs, buf, offset, r) ==> ReadsThroughout(r.value, FlatWrite(Flat(xs), offset, buf)))
            && !WroteInOrder(xs, buf, offset, block, r)
  {
    RoundUpAbove(|buf|, max, block);
    if xs == [] || xs[0].offset <= offset {
      LongNeverDone(xs, buf, offset, block, max, stack);
    } else if max > 0 && stack > 0 {
      assert xs == [xs[0]];
      LowLongNeverSorted(xs[0], buf, offset, block, max, stack);
      LowLongExactly(xs[0], buf, offset, block, max, stack);
    }
  }

  // ----- any write to a file of at most one extent

  /** A file of at most one extent reads throughout as its flat contents. */
  lemma LoneReadsThroughout(xs: seq<Extent>)
    requires |xs| <= 1
    ensures ReadsThroughout(xs, Flat(xs))
  {
    SortedIsSpaced(xs);
    forall p: nat, n: nat | p <= |Flat(xs)| ensures ReadResult(xs, p, n) == Some(Part(Flat(xs), p, n)) {
      ReadResultIsWindow(xs, p, n);
      WindowOfFlat(xs, p, Min(n, Size(xs) - p));
    }
  }

  lemma LowSingleExactly(x: Extent, buf: seq<byte>, offset: nat, block: nat, max: nat, stack: nat)
    requires block > 0 && Aligned(max, block) && |buf| <= max && offset < x.offset
    ensures var r := WriteAt([x], buf, offset, block, max, stack);
            && (Wrote([x], buf, offset, r) <==> Repeats([x], buf, offset))
            && (Wrote([x], buf, offset, r) ==> ReadsThroughout(r.value, FlatWrite(Flat([x]), offset, buf)))
            && !WroteInOrder([x], buf, offset, block, r)
  {
    LowWritePushes(x, buf, offset, block, max, stack);
    assert [x] + [NewExtent(buf, offset, block)] == [x, NewExtent(buf, offset, block)];
    LowWriteExactly([x], buf, offset, block);
    if Repeats([x], buf, offset) { OnePushThroughout(x, buf, offset, block); }
  }

  /** A write that is not below the extent. */
  lemma HighSingleExactly(xs: seq<Extent>, buf: seq<byte>, offset: nat, block: nat, max: nat, stack: nat)
    requires block > 0 && Aligned(max, block) && WellFormed(xs, block) && |xs| <= 1 && |buf| <= max
    requires xs != [] ==> xs[0].offset <= offset
    ensures var r := WriteAt(xs, buf, offset, block, max, stack);
            && (r.Done? <==> HasRoom(Base(xs), offset, |buf|, max))
            && (r.Done? ==> WroteInOrder(xs, buf, offset, block, r) && |r.value| == 1)
            && (r.Done? ==> Base(r.value) == if xs == [] then Some(RoundDown(offset, block)) else Base(xs))
  {
    StartIsLast(xs, offset);
    SearchLocates(xs, offset);
    if xs != [] && offset + |buf| > xs[0].offset + max {
      OverlongNeverDone(xs, buf, offset, block, max, stack);
    } else {
      WriteExactly(xs, buf, offset, block, max, stack);
      if xs != [] {
        assert xs == [xs[0]];
        FittingShape(xs[0], buf, offset, block, max, stack);
      } else {
        RoundUpAbove(|buf|, max, block);
      }
    }
  }

  /** After a write to a file of at most one extent the file reads as it should exactly when the write has
      room or is a lucky low one, and the extents are in order exactly when it has room. Otherwise it
      underflows, recurses without end, or what it wrote is not found. */
  lemma SingleWriteExactly(xs: seq<Extent>, buf: seq<byte>, offset: nat, block: nat, max: nat, stack: nat)
    requires block > 0 && Aligned(max, block) && WellFormed(xs, block) && |xs| <= 1
    ensures var r := WriteAt(xs, buf, offset, block, max, stack);
            && (Wrote(xs, buf, offset, r) <==>
                  HasRoom(Base(xs), offset, |buf|, max) || LuckyLow(xs, buf, offset, block, max, stack))
            && (Wrote(xs, buf, offset, r) ==> ReadsThroughout(r.value, FlatWrite(Flat(xs), offset, buf)))
            && (WroteInOrder(xs, buf, offset, block, r) <==> HasRoom(Base(xs), offset, |buf|, max))
            && (HasRoom(Base(xs), offset, |buf|, max) ==> |r.value| == 1)
            && (HasRoom(Base(xs), offset, |buf|, max) ==>
                  Base(r.value) == if xs == [] then Some(RoundDown(offset, block)) else Base(xs))
  {
    if |buf| > max {
      LongWritesExactly(xs, buf, offset, block, max, stack);
    } else if xs != [] && offset < xs[0].offset {
      assert xs == [xs[0]];
      LowSingleExactly(xs[0], buf, offset, block, max, stack);
    } else {
      HighSingleExactly(xs, buf, offset, block, max, stack);
      var r := WriteAt(xs, buf, offset, block, max, stack);
      if r.Done? {
        LoneReadsThroughout(r.value);
        SortedIsSpaced(r.value);
        WroteFlat(xs, buf, offset, r.value);
      }
    }
  }

  /** The extents a lucky low write leaves behind. */
  lemma LuckyLowShape(x: Extent, buf: seq<byte>, offset: nat, block: nat, max: nat, stack: nat)
    requires block > 0 && Aligned(max, block) && LuckyLow([x], buf, offset, block, max, stack)
    ensures WriteAt([x], buf, offset, block, max, stack) ==
              if |buf| <= max then Done([x, NewExtent(buf, offset, block)])
              else Done([x, NewExtent(buf[..max], offset, block), NewExtent(buf[max..], offset + max, block)])
  {
    if |buf| <= max {
      LowWritePushes(x, buf, offset, block, max, stack);
    } else {
      LongLowShape(x, buf, offset, block, max, stack);
    }
  }

  lemma LongLowShape(x: Extent, buf: seq<byte>, offset: nat, block: nat, max: nat, stack: nat)
    requires block > 0 && Aligned(max, block) && max < |buf| <= 2 * max && offset + max < x.offset && stack > 0
    ensures WriteAt([x], buf, offset, block, max, stack) ==
              Done([x, NewExtent(buf[..max], offset, block), NewExtent(buf[max..], offset + max, block)])
  {
    RoundUpAbove(|buf|, max, block);
    LowWritePushes(x, buf[..max], offset, block, max, stack - 1);
    SecondChunk(x, NewExtent(buf[..max], offset, block), buf[max..], offset + max, block, max, stack);
  }

  /** With a maximum of one byte the next byte goes to the empty first extent, which cannot merge. */
  lemma TinyBreaks(x: Extent, buf: seq<byte>, offset: nat, b: byte, block: nat, more: nat)
    requires block > 0 && Aligned(1, block) && offset < x.offset <= x.End() <= offset + |buf| && |buf| <= 1
    ensures !WriteAt([x, NewExtent(buf, offset, block)], [b], x.offset, block, 1, more).Done?
  {
    var e := NewExtent(buf, offset, block);
    TwoStart([x, e], x.offset);
    StartIsLast([x, e], x.offset);
    RoundUpAbove(1, 1, block);
    ChunkInFirst(x, e, [b], block);
  }

  /** Why a lucky low write is no way out: a byte at the end of the room the extent still has, which a file
      with these contents and this base should take, can no longer be written. */
  lemma LuckyLowBreaks(x: Extent, buf: seq<byte>, offset: nat, b: byte, block: nat, max: nat, stack: nat, more: nat)
    requires block > 0 && Aligned(max, block) && LuckyLow([x], buf, offset, block, max, stack)
    ensures max > 0
    ensures WriteAt([x], buf, offset, block, max, stack).Done?
    ensures var ys := WriteAt([x], buf, offset, block, max, stack).value;
            !WriteAt(ys, [b], x.offset + max - 1, block, max, more).Done?
  {
    LuckyLowShape(x, buf, offset, block, max, stack);
    var ys, p := WriteAt([x], buf, offset, block, max, stack).value, x.offset + max - 1;
    if |buf| > max {
      ThreeStart(ys, p);
      StuckNeverDone(ys, [b], p, block, max, more);
    } else {
      assert |Flat([x])| == x.End() <= offset + |buf|;
      TwoStart(ys, p);
      if max > 1 {
        StuckNeverDone(ys, [b], p, block, max, more);
      } else {
        TinyBreaks(x, buf, offset, b, block, more);
      }
    }
  }

  // ----- runs

  datatype FileOp =
    | WriteOp(buf: seq<byte>, offset: nat)
    | TruncateOp(size: nat)
    | ReadOp(offset: nat, count: nat)

  /** A plain growable byte sequence, and where its first block starts. */
  datatype FlatFile = FlatFile(base: Option<nat>, bytes: seq<byte>)

  /** What an operation leaves behind, and the bytes it returns. */
  datatype Effect<+T> = Effect(file: T, read: seq<byte>)

  /** What every operation should do; None for a read past the end. */
  function Ideal(f: FlatFile, op: FileOp, block: nat): Option<Effect<FlatFile>>
    requires block > 0
  {
    match op
    case WriteOp(buf, offset) =>
      var base := if f.base.None? then Some(RoundDown(offset, block)) else f.base;
      Some(Effect(FlatFile(base, FlatWrite(f.bytes, offset, buf)), []))
    case TruncateOp(size) =>
      Some(Effect(FlatFile(if size == 0 then None else f.base, f.bytes[..Min(size, |f.bytes|)]), []))
    case ReadOp(offset, count) =>
      if offset > |f.bytes| then None
      else Some(Effect(f, f.bytes[offset..offset + Min(count, |f.bytes| - offset)]))
  }

  /** Every operation a caller may issue without breaking the file. */
  predicate Allowed(f: FlatFile, op: FileOp, max: nat)
  {
    match op
    case WriteOp(buf, offset) => HasRoom(f.base, offset, |buf|, max)
    case TruncateOp(size) => f.base.Some? ==> size == 0 || size > f.base.value
    case ReadOp(offset, _) => offset <= |f.bytes|
  }

  /** What it does; None when it panics or exhausts the stack. */
  function Perform(xs: seq<Extent>, op: FileOp, block: nat, max: nat, stack: nat): Option<Effect<seq<Extent>>>
    requires block > 0
  {
    match op
    case WriteOp(buf, offset) =>
      var r := WriteAt(xs, buf, offset, block, max, stack);
      if r.Done? then Some(Effect(r.value, [])) else None
    case TruncateOp(size) => Some(Effect(Truncated(xs, size), []))
    case ReadOp(offset, count) =>
      var r := ReadResult(xs, offset, count);
      if r.Some? then Some(Effect(xs, r.value)) else None
  }

  ghost predicate Represents(xs: seq<Extent>, f: FlatFile, block: nat)
    requires block > 0
  {
    WellFormed(xs, block) && |xs| <= 1 && Base(xs) == f.base && Flat(xs) == f.bytes
  }

  /** One operation does what it should: it returns the right bytes, and so does every read after it. */
  ghost predicate Agrees(xs: seq<Extent>, f: FlatFile, op: FileOp, block: nat, max: nat, stack: nat)
    requires block > 0
  {
    var r, w := Perform(xs, op, block, max, stack), Ideal(f, op, block);
    r.Some? && w.Some? && ReadsThroughout(r.value.file, w.value.file.bytes) && r.value.read == w.value.read
  }

  /** Whatever a caller may do next does what it should. */
  ghost predicate Ready(xs: seq<Extent>, f: FlatFile, block: nat, max: nat, stack: nat)
    requires block > 0
  {
    forall op :: Allowed(f, op, max) ==> Agrees(xs, f, op, block, max, stack)
  }

  /** Every operation of the run does what it should. */
  ghost predicate ContentsAgree(xs: seq<Extent>, f: FlatFile, ops: seq<FileOp>, block: nat, max: nat, stack: nat)
    requires block > 0
    decreases |ops|
  {
    ops != [] ==>
      && Agrees(xs, f, ops[0], block, max, stack)
      && ContentsAgree(Perform(xs, ops[0], block, max, stack).value.file, Ideal(f, ops[0], block).value.file, ops[1..],
                       block, max, stack)
  }

  /** And after each of them so would whatever a caller may do next. */
  ghost predicate RunAgrees(xs: seq<Extent>, f: FlatFile, ops: seq<FileOp>, block: nat, max: nat, stack: nat)
    requires block > 0
    decreases |ops|
  {
    ops != [] ==>
      && Agrees(xs, f, ops[0], block, max, stack)
      && var ys, g := Perform(xs, ops[0], block, max, stack).value.file, Ideal(f, ops[0], block).value.file;
         Ready(ys, g, block, max, stack) && RunAgrees(ys, g, ops[1..], block, max, stack)
  }

  predicate AllAllowed(f: FlatFile, ops: seq<FileOp>, block: nat, max: nat)
    requires block > 0
    decreases |ops|
  {
    ops != [] ==> Allowed(f, ops[0], max) && AllAllowed(Ideal(f, ops[0], block).value.file, ops[1..], block, max)
  }

  lemma TruncateExactly(xs: seq<Extent>, f: FlatFile, size: nat, block: nat)
    requires block > 0 && Represents(xs, f, block)
    ensures ReadsThroughout(Truncated(xs, size), f.bytes[..Min(size, |f.bytes|)]) <==> Allowed(f, TruncateOp(size), 0)
    ensures Allowed(f, TruncateOp(size), 0) ==>
              Represents(Truncated(xs, size), Ideal(f, TruncateOp(size), block).value.file, block)
  {
    var ys, g := Truncated(xs, size), f.bytes[..Min(size, |f.bytes|)];
    SearchLocates(xs, size);
    if Allowed(f, TruncateOp(size), 0) {
      TruncateKeepsBelowCut(xs, size, block);
      TruncatedFlat(xs, f, size, block);
      LoneReadsThroughout(ys);
    } else {
      assert ys == [] && Size(ys) == 0 && |g| == size;
    }
  }

  lemma TruncatedFlat(xs: seq<Extent>, f: FlatFile, size: nat, block: nat)
    requires block > 0 && Represents(xs, f, block) && Allowed(f, TruncateOp(size), 0)
    ensures Flat(Truncated(xs, size)) == f.bytes[..Min(size, |f.bytes|)]
    ensures |Truncated(xs, size)| <= 1
    ensures Base(Truncated(xs, size)) == if size == 0 then None else f.base
  {
    var ys, g := Truncated(xs, size), f.bytes[..Min(size, |f.bytes|)];
    SearchLocates(xs, size);
    TruncateKeepsBelowCut(xs, size, block);
    assert |Flat(ys)| == |g|;
    forall p | 0 <= p < |g| ensures Flat(ys)[p] == g[p] {
      assert Flat(xs)[p] == f.bytes[p];
    }
  }

  /** A read of such a file may start anywhere up to the end, and nowhere else; it returns the bytes of
      the flat sequence. */
  lemma ReadExactly(xs: seq<Extent>, f: FlatFile, offset: nat, count: nat, block: nat)
    requires block > 0 && Represents(xs, f, block)
    ensures ReadResult(xs, offset, count) ==
              if offset <= |f.bytes| then Some(f.bytes[offset..offset + Min(count, |f.bytes| - offset)]) else None
  {
    LoneReadsThroughout(xs);
    if offset <= |f.bytes| {
      assert ReadResult(xs, offset, count) == Some(Part(f.bytes, offset, count));
    }
  }

  lemma WriteAgreesExactly(xs: seq<Extent>, f: FlatFile, buf: seq<byte>, offset: nat, block: nat, max: nat, stack: nat)
    requires block > 0 && Aligned(max, block) && Represents(xs, f, block)
    ensures Agrees(xs, f, WriteOp(buf, offset), block, max, stack) <==>
              Allowed(f, WriteOp(buf, offset), max) || LuckyLow(xs, buf, offset, block, max, stack)
    ensures Allowed(f, WriteOp(buf, offset), max) ==>
              Represents(Perform(xs, WriteOp(buf, offset), block, max, stack).value.file,
                         Ideal(f, WriteOp(buf, offset), block).value.file, block)
  {
    SingleWriteExactly(xs, buf, offset, block, max, stack);
    var r := WriteAt(xs, buf, offset, block, max, stack);
    if r.Done? && ReadsThroughout(r.value, FlatWrite(f.bytes, offset, buf)) {
      ThroughoutReadsAs(r.value, FlatWrite(f.bytes, offset, buf));
    }
    if HasRoom(Base(xs), offset, |buf|, max) {
      SortedIsSpaced(r.value);
      WroteFlat(xs, buf, offset, r.value);
    }
  }

  /** One operation on a file of at most one extent does what it should exactly if it is allowed, lucky
      low writes apart; an allowed one leaves such a file again. */
  lemma OpExactly(xs: seq<Extent>, f: FlatFile, op: FileOp, block: nat, max: nat, stack: nat)
    requires block > 0 && Aligned(max, block) && Represents(xs, f, block)
    ensures Agrees(xs, f, op, block, max, stack) <==>
              Allowed(f, op, max) || (op.WriteOp? && LuckyLow(xs, op.buf, op.offset, block, max, stack))
    ensures Allowed(f, op, max) ==>
              Represents(Perform(xs, op, block, max, stack).value.file, Ideal(f, op, block).value.file, block)
  {
    match op {
      case WriteOp(buf, offset) => WriteAgreesExactly(xs, f, buf, offset, block, max, stack);
      case TruncateOp(size) => TruncateExactly(xs, f, size, block);
      case ReadOp(offset, count) =>
        ReadExactly(xs, f, offset, count, block);
        LoneReadsThroughout(xs);
    }
  }

  lemma RepresentsIsReady(xs: seq<Extent>, f: FlatFile, block: nat, max: nat, stack: nat)
    requires block > 0 && Aligned(max, block) && Represents(xs, f, block)
    ensures Ready(xs, f, block, max, stack)
  {
    forall op | Allowed(f, op, max) ensures Agrees(xs, f, op, block, max, stack) {
      OpExactly(xs, f, op, block, max, stack);
    }
  }

  /** After a lucky low write one that is allowed fails. */
  lemma LuckIsNotReady(xs: seq<Extent>, f: FlatFile, buf: seq<byte>, offset: nat, block: nat, max: nat, stack: nat)
    requires block > 0 && Aligned(max, block) && Represents(xs, f, block)
    requires LuckyLow(xs, buf, offset, block, max, stack)
    ensures Agrees(xs, f, WriteOp(buf, offset), block, max, stack)
    ensures !Ready(Perform(xs, WriteOp(buf, offset), block, max, stack).value.file,
                   Ideal(f, WriteOp(buf, offset), block).value.file, block, max, stack)
  {
    assert xs == [xs[0]];
    WriteAgreesExactly(xs, f, buf, offset, block, max, stack);
    LuckyLowBreaks(xs[0], buf, offset, 0, block, max, stack, stack);
    var next := WriteOp([0], xs[0].offset + max - 1);
    assert Allowed(Ideal(f, WriteOp(buf, offset), block).value.file, next, max);
    assert !Agrees(WriteAt(xs, buf, offset, block, max, stack).value, Ideal(f, WriteOp(buf, offset), block).value.file,
                   next, block, max, stack);
  }

  /** The refinement, both ways: in a run of reads, writes and truncations every operation does what it
      would on a flat byte sequence, and leaves a file ready for the next one, exactly when every write
      fits, no truncation cuts into the zeros before the extent and no read starts past the end. */
  lemma {:induction false} RunExactly(xs: seq<Extent>, f: FlatFile, ops: seq<FileOp>, block: nat, max: nat, stack: nat)
    requires block > 0 && Aligned(max, block) && Represents(xs, f, block)
    ensures RunAgrees(xs, f, ops, block, max, stack) <==> AllAllowed(f, ops, block, max)
    decreases |ops|
  {
    if ops != [] {
      var op := ops[0];
      OpExactly(xs, f, op, block, max, stack);
      if Allowed(f, op, max) {
        var ys, g := Perform(xs, op, block, max, stack).value.file, Ideal(f, op, block).value.file;
        RepresentsIsReady(ys, g, block, max, stack);
        RunExactly(ys, g, ops[1..], block, max, stack);
      } else if op.WriteOp? && LuckyLow(xs, op.buf, op.offset, block, max, stack) {
        LuckIsNotReady(xs, f, op.buf, op.offset, block, max, stack);
      }
    }
  }

  /** The first operation of the run that is not allowed is a lucky low write. */
  predicate StraysByLuck(xs: seq<Extent>, f: FlatFile, ops: seq<FileOp>, block: nat, max: nat, stack: nat)
    requires block > 0
    decreases |ops|
  {
    && ops != []
    && var op := ops[0];
       if Allowed(f, op, max) then
         var r := Perform(xs, op, block, max, stack);
         r.Some? && StraysByLuck(r.value.file, Ideal(f, op, block).value.file, ops[1..], block, max, stack)
       else op.WriteOp? && LuckyLow(xs, op.buf, op.offset, block, max, stack)
  }

  /** Looking at what is read alone, a run agrees if all of it is allowed; one that is not can only agree
      by straying with a lucky low write. */
  lemma {:induction false} ContentsRun(xs: seq<Extent>, f: FlatFile, ops: seq<FileOp>, block: nat, max: nat, stack: nat)
    requires block > 0 && Aligned(max, block) && Represents(xs, f, block)
    ensures AllAllowed(f, ops, block, max) ==> ContentsAgree(xs, f, ops, block, max, stack)
    ensures ContentsAgree(xs, f, ops, block, max, stack) && !AllAllowed(f, ops, block, max) ==>
              StraysByLuck(xs, f, ops, block, max, stack)
    decreases |ops|
  {
    if ops != [] {
      var op := ops[0];
      OpExactly(xs, f, op, block, max, stack);
      if Allowed(f, op, max) {
        ContentsRun(Perform(xs, op, block, max, stack).value.file, Ideal(f, op, block).value.file, ops[1..],
                    block, max, stack);
      }
    }
  }

  // ----- the end of a run

  /** The extents after a run; None when an operation failed. */
  function FileAfter(xs: seq<Extent>, ops: seq<FileOp>, block: nat, max: nat, stack: nat): Option<seq<Extent>>
    requires block > 0
    decreases |ops|
  {
    if ops == [] then Some(xs)
    else match Perform(xs, ops[0], block, max, stack)
      case None => None
      case Some(e) => FileAfter(e.file, ops[1..], block, max, stack)
  }

  function FlatAfter(f: FlatFile, ops: seq<FileOp>, block: nat): Option<FlatFile>
    requires block > 0
    decreases |ops|
  {
    if ops == [] then Some(f)
    else match Ideal(f, ops[0], block)
      case None => None
      case Some(e) => FlatAfter(e.file, ops[1..], block)
  }

  lemma {:induction false} RunRepresents(xs: seq<Extent>, f: FlatFile, ops: seq<FileOp>, block: nat, max: nat,
          stack: nat)
    requires block > 0 && Aligned(max, block) && Represents(xs, f, block) && AllAllowed(f, ops, block, max)
    ensures FileAfter(xs, ops, block, max, stack).Some? && FlatAfter(f, ops, block).Some?
    ensures Represents(FileAfter(xs, ops, block, max, stack).value, FlatAfter(f, ops, block).value, block)
    decreases |ops|
  {
    if ops != [] {
      OpExactly(xs, f, ops[0], block, max, stack);
      RunRepresents(Perform(xs, ops[0], block, max, stack).value.file, Ideal(f, ops[0], block).value.file, ops[1..],
                    block, max, stack);
    }
  }

  /** What any read returns after any allowed run from the empty file: the bytes of the flat sequence the
      same run leads to, cut off at its end. */
  lemma ReadsBack(ops: seq<FileOp>, block: nat, max: nat, stack: nat, offset: nat, count: nat)
    requires block > 0 && Aligned(max, block) && AllAllowed(FlatFile(None, []), ops, block, max)
    ensures FileAfter([], ops, block, max, stack).Some? && FlatAfter(FlatFile(None, []), ops, block).Some?
    ensures var bytes := FlatAfter(FlatFile(None, []), ops, block).value.bytes;
            ReadResult(FileAfter([], ops, block, max, stack).value, offset, count) ==
              if offset <= |bytes| then Some(bytes[offset..offset + Min(count, |bytes| - offset)]) else None
  {
    RunRepresents([], FlatFile(None, []), ops, block, max, stack);
    ReadExactly(FileAfter([], ops, block, max, stack).value, FlatAfter(FlatFile(None, []), ops, block).value,
                offset, count, block);
  }

  /** So that is what `BlockFile.Read` puts into its buffer. */
  method ReadAfter(file: BlockFile, ops: seq<FileOp>, stack: nat, buf: array<byte>, offset: nat)
    returns (r: Outcome<nat>)
    requires file.block > 0 && Aligned(file.maxExtentSize, file.block)
    requires AllAllowed(FlatFile(None, []), ops, file.block, file.maxExtentSize)
    requires FileAfter([], ops, file.block, file.maxExtentSize, stack) == Some(file.extents)
    modifies buf
    ensures FlatAfter(FlatFile(None, []), ops, file.block).Some?
    ensures var bytes := FlatAfter(FlatFile(None, []), ops, file.block).value.bytes;
            && (r.Done? <==> offset <= |bytes|)
            && (r.Done? ==> r.value <= buf.Length
                            && buf[..r.value] == bytes[offset..offset + Min(buf.Length, |bytes| - offset)])
  {
    ReadsBack(ops, file.block, file.maxExtentSize, stack, offset, buf.Length);
    r := file.Read(buf, offset);
  }

  // ----- failures on concrete files

  /** Where the file falls short of a byte sequence: with one byte in the second block, writing
      a byte at 0 leaves a file of size 1 with the old byte out of reach. */
  lemma LowWriteFails(block: nat, max: nat, stack: nat)
    requires block > 0 && max > 0 && Aligned(max, block)
    ensures var r := WriteAt([Extent(block, [7])], [9], 0, block, max, stack);
            r.Done? && Size(r.value) == 1 < Size([Extent(block, [7])])
  {
    LowWritePushes(Extent(block, [7]), [9], 0, block, max, stack);
  }

  /** Cutting a file that starts at 8192 down to 4096 leaves it empty. */
  lemma LowCutFails()
    ensures Truncated([Extent(8192, [7])], 4096) == [] && Size([Extent(8192, [7])]) == 8193
  {
    SearchLocates([Extent(8192, [7])], 4096);
  }

  lemma FirstExtentTakes(xs: seq<Extent>, buf: seq<byte>, offset: nat, block: nat, max: nat, stack: nat)
    requires block > 0 && Aligned(max, block) && |buf| <= max && |xs| == 2
    requires xs[0].offset == offset
    requires xs[1].offset != offset
    ensures WriteAt(xs, buf, offset, block, max, stack) == WriteInto(xs, 0, buf, offset, block)
  {
    assert SearchFrom(xs, offset, Low, -1, 2) == Exact(0);
    RoundUpAbove(|buf|, max, block);
  }

  /** A merge that copies the wrong byte, for any block size: with `data` from the second of two blocks on, a
      write of a block and a byte at the first puts the first byte of `data` where its second was. */
  lemma MergeCopiesWrongByte(xs: seq<Extent>, buf: seq<byte>, block: nat, max: nat, stack: nat)
    requires block > 1 && Aligned(max, block) && |xs| == 2 && Aligned(xs[0].offset, block)
    requires 0 < |xs[0].data| <= block && xs[1].offset == xs[0].offset + block
    requires |xs[1].data| >= block && xs[1].data[0] != xs[1].data[1]
    requires |buf| == block + 1 <= max
    ensures var r, p := WriteAt(xs, buf, xs[0].offset, block, max, stack), xs[1].offset + 1;
            r.Done? && ByteAt(xs, p) == xs[1].data[1] && ByteAt(r.value, p) == xs[1].data[0]
    ensures !Wrote(xs, buf, xs[0].offset, WriteAt(xs, buf, xs[0].offset, block, max, stack))
  {
    AddBlock(xs[0].offset, block);
    FirstExtentTakes(xs, buf, xs[0].offset, block, max, stack);
    MergeTakesWrongByte(xs, buf, block);
    MergeMisses(xs, xs[0].offset + |buf|, block);
    MergeWritesExactly(xs, 0, buf, xs[0].offset, block);
  }

  lemma MergeTakesWrongByte(xs: seq<Extent>, buf: seq<byte>, block: nat)
    requires block > 1 && |xs| == 2 && WellFormed(xs, block) && |xs[0].data| <= block && |buf| == block + 1
    requires xs[1].offset == xs[0].offset + block && |xs[1].data| >= block
    ensures var r, p := WriteInto(xs, 0, buf, xs[0].offset, block), xs[1].offset + 1;
            r.Done? && ByteAt(xs, p) == xs[1].data[1] && ByteAt(r.value, p) == xs[1].data[0]
  {
    var at, p := xs[0].offset, xs[1].offset + 1;
    MergedShape(xs, 0, buf, at, block);
    MergedByte(xs, 0, buf, at, block, p);
    ByteAtCovered(xs, 1, p);
  }

  lemma MergeMisses(xs: seq<Extent>, over: nat, block: nat)
    requires block > 1 && |xs| == 2 && |xs[1].data| >= block && xs[1].data[0] != xs[1].data[1]
    requires over == xs[1].offset + 1
    ensures !MergeMoves(xs, 0, over, block)
  {
    var data := xs[1].data;
    assert data[..block - 1][0] != data[1..block][0];
  }

  lemma AlignedRoundsToItself(x: nat, block: nat)
    requires block > 0 && Aligned(x, block)
    ensures RoundUp(x, block) == x && RoundDown(x, block) == x
  {
    RoundUpAbove(x, x, block);
  }

  /** Such a list is reached from the empty file: a byte in the third block, four blocks below it, and
      the third block again. */
  lemma MergeReached(low: seq<byte>, fill: seq<byte>, block: nat, max: nat, stack: nat)
    requires block > 1 && Aligned(max, block) && |low| == 4 * block <= max && |fill| == block
    ensures FileAfter([], [WriteOp([7], 2 * block), WriteOp(low, 0), WriteOp(fill, 2 * block)], block, max, stack) ==
              Some([Extent(2 * block, fill), Extent(3 * block, low[3 * block..])])
  {
    var at := 2 * block;
    var x, e := Extent(at, [7]), Extent(0, low);
    MultipleIsAligned(2, block);
    AlignedRoundsToItself(at, block);
    FirstByte(at, block, max, stack);
    LowWritePushes(x, low, 0, block, max, stack);
    AlignedRoundsToItself(0, block);
    assert Zeros(0) + low == low;
    FillTakesOver(x, e, low, fill, block, max, stack);
    var ops := [WriteOp([7], at), WriteOp(low, 0), WriteOp(fill, at)];
    var ys := [Extent(at, fill), Extent(3 * block, low[3 * block..])];
    assert ops[1..][1..] == [WriteOp(fill, at)] && ops[1..][1..][1..] == [];
    assert FileAfter([x, e], ops[1..][1..], block, max, stack) == Some(ys);
    assert FileAfter([x], ops[1..], block, max, stack) == Some(ys);
  }

  lemma FirstByte(at: nat, block: nat, max: nat, stack: nat)
    requires block > 0 && Aligned(at, block) && Aligned(max, block) && max > 0
    ensures WriteAt([], [7], at, block, max, stack) == Done([Extent(at, [7])])
  {
    StartIsLast([], at);
    RoundUpAbove(1, max, block);
    AlignedRoundsToItself(at, block);
    assert Zeros(0) + [7] == [7] && [] + [Extent(at, [7])] == [Extent(at, [7])];
  }

  /** The third write moves on the start of the extent below the first. */
  lemma FillTakesOver(x: Extent, e: Extent, low: seq<byte>, fill: seq<byte>, block: nat, max: nat, stack: nat)
    requires block > 1 && Aligned(max, block) && |low| == 4 * block <= max && |fill| == block
    requires x == Extent(2 * block, [7]) && e == Extent(0, low)
    ensures WriteAt([x, e], fill, 2 * block, block, max, stack) ==
              Done([Extent(2 * block, fill), Extent(3 * block, low[3 * block..])])
  {
    var grown := Extent(2 * block, Overlay(Grown([7], block), 0, fill));
    FirstExtentTakes([x, e], fill, 2 * block, block, max, stack);
    MultipleIsAligned(1, block);
    MultipleIsAligned(3, block);
    AlignedRoundsToItself(block, block);
    AlignedRoundsToItself(3 * block, block);
    assert grown.data == fill && fill[..block] + low[..0] == fill;
    assert WriteInto([x, e], 0, fill, 2 * block, block) == Merged([x, e], 0, grown, 3 * block, block);
    assert [x, e][0 := Extent(2 * block, fill)][1 := Extent(3 * block, low[3 * block..])] ==
           [Extent(2 * block, fill), Extent(3 * block, low[3 * block..])];
  }
}
