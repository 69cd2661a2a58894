/** The sparse file of examples/tmpfs/block_file.rs, and what it means as a flat byte sequence. */
module BlockFiles {
  import opened Bytes

  datatype Extent = Extent(offset: nat, data: seq<byte>) {
    function End(): nat { offset + |data| }
  }

  datatype SearchBias = Low | High

  /** `Result<usize, isize>` of `search_extent`: the index of an exact match, or a neighbour. */
  datatype Found = Exact(index: nat) | Between(neighbour: int)

  /** How a call ends. Overflowing arithmetic, an out-of-range slice and unbounded recursion end
      the Rust program; `stack` bounds the nesting of calls. */
  datatype Outcome<+T> = Done(value: T) | Panicked | StackOverflow

  // ----- block arithmetic: `x & !mask` and `(x + mask) & !mask` for mask == block - 1

  function RoundDown(x: nat, block: nat): (r: nat)
    requires block > 0
    ensures r <= x < r + block
  {
    x - x % block
  }

  function RoundUp(x: nat, block: nat): (r: nat)
    requires block > 0
    ensures x <= r < x + block
  {
    RoundDown(x + block - 1, block)
  }

  predicate Aligned(x: nat, block: nat)
    requires block > 0
  {
    x % block == 0
  }

  lemma RoundDownAligned(x: nat, block: nat)
    requires block > 0
    ensures Aligned(RoundDown(x, block), block)
  {
    var q := x / block;
    assert x - x % block == q * block;
    MultipleIsAligned(q, block);
  }

  lemma MultipleIsAligned(q: nat, block: nat)
    requires block > 0
    ensures (q * block) % block == 0
  {
    if q > 0 {
      MultipleIsAligned(q - 1, block);
      assert q * block == (q - 1) * block + block;
      AddBlock((q - 1) * block, block);
    }
  }

  lemma AddBlock(x: nat, block: nat)
    requires block > 0
    ensures (x + block) % block == x % block
  {
    var q, r := x / block, x % block;
    assert x + block == (q + 1) * block + r;
    assert (x + block) / block == q + 1 by { DivUnique(x + block, q + 1, r, block); }
  }

  lemma MulMonotonic(a: int, b: int, c: int)
    requires a <= b && c >= 0
    ensures a * c <= b * c
  {
  }

  lemma DivUnique(x: nat, q: nat, r: nat, block: nat)
    requires block > 0 && r < block && x == q * block + r
    ensures x / block == q && x % block == r
  {
    var q' := x / block;
    if q' < q {
      MulMonotonic(q' + 1, q, block);
    } else if q' > q {
      MulMonotonic(q + 1, q', block);
    }
  }

  /** The test `round_up(x) > limit` of the source is `x > limit` when the limit is aligned. */
  lemma RoundUpAbove(x: nat, limit: nat, block: nat)
    requires block > 0 && Aligned(limit, block)
    ensures RoundUp(x, block) > limit <==> x > limit
  {
    if x <= limit {
      RoundDownAligned(x + block - 1, block);
      AlignedAtMost(RoundUp(x, block), limit, block);
    }
  }

  /** Two aligned numbers less than a block apart are in order. */
  lemma AlignedAtMost(a: nat, b: nat, block: nat)
    requires block > 0 && Aligned(a, block) && Aligned(b, block) && a < b + block
    ensures a <= b
  {
    var p, q := a / block, b / block;
    assert a == p * block && b == q * block;
    if p > q {
      MulMonotonic(q + 1, p, block);
    } else {
      MulMonotonic(p, q, block);
    }
  }

  lemma AlignedSum(x: nat, y: nat, block: nat)
    requires block > 0 && Aligned(x, block) && Aligned(y, block)
    ensures Aligned(x + y, block)
  {
    var p, q := x / block, y / block;
    assert x + y == (p + q) * block;
    MultipleIsAligned(p + q, block);
  }

  predicate IsPowerOfTwo(n: nat)
  {
    n == 1 || (n > 0 && n % 2 == 0 && IsPowerOfTwo(n / 2))
  }

  // ----- what an extent list means

  /** Extents in order, aligned, not overlapping: the shape every reader assumes. */
  predicate WellFormed(xs: seq<Extent>, block: nat)
    requires block > 0
  {
    && (forall i :: 0 <= i < |xs| ==> Aligned(xs[i].offset, block))
    && Sorted(xs)
  }

  predicate Sorted(xs: seq<Extent>)
  {
    forall i, j :: 0 <= i < j < |xs| ==> xs[i].offset < xs[j].offset && xs[i].End() <= xs[j].offset
  }

  /** In order and not overlapping, but an empty extent may start where the next one does: a merge that
      takes all of the next extent leaves such a list. */
  predicate Ordered(xs: seq<Extent>)
  {
    forall i, j :: 0 <= i < j < |xs| ==> xs[i].End() <= xs[j].offset
  }

  function Size(xs: seq<Extent>): nat
  {
    if xs == [] then 0 else xs[|xs| - 1].End()
  }

  /** The byte at position `p`: the first extent covering it decides, and gaps read as zero. */
  function ByteAt(xs: seq<Extent>, p: nat): byte
  {
    if xs == [] then 0
    else if xs[0].offset <= p < xs[0].End() then xs[0].data[p - xs[0].offset]
    else ByteAt(xs[1..], p)
  }

  /** The flat contents of the file. */
  function Flat(xs: seq<Extent>): (f: seq<byte>)
    ensures |f| == Size(xs)
    ensures forall p :: 0 <= p < |f| ==> f[p] == ByteAt(xs, p)
  {
    seq(Size(xs), p requires p >= 0 => ByteAt(xs, p))
  }

  /** Overwriting `f` at `offset`, extending it with zeros where the write starts past its end. */
  function FlatWrite(f: seq<byte>, offset: nat, buf: seq<byte>): (g: seq<byte>)
    ensures |g| == Max(|f|, offset + |buf|)
    ensures forall p :: 0 <= p < |g| ==>
              g[p] == if offset <= p < offset + |buf| then buf[p - offset] else if p < |f| then f[p] else 0
  {
    seq(Max(|f|, offset + |buf|), p requires p >= 0 =>
      if offset <= p < offset + |buf| then buf[p - offset] else if p < |f| then f[p] else 0)
  }

  lemma {:induction false} ByteAtCovered(xs: seq<Extent>, i: nat, p: nat)
    requires Ordered(xs) && i < |xs| && xs[i].offset <= p < xs[i].End()
    ensures ByteAt(xs, p) == xs[i].data[p - xs[i].offset]
  {
    if i > 0 {
      assert xs[0].End() <= xs[i].offset;
      ByteAtCovered(xs[1..], i - 1, p);
    }
  }

  lemma {:induction false} ByteAtGap(xs: seq<Extent>, p: nat)
    requires forall i :: 0 <= i < |xs| ==> !(xs[i].offset <= p < xs[i].End())
    ensures ByteAt(xs, p) == 0
  {
    if xs != [] {
      ByteAtGap(xs[1..], p);
    }
  }

  lemma SizeBounds(xs: seq<Extent>, i: nat)
    requires Ordered(xs) && i < |xs|
    ensures xs[i].End() <= Size(xs)
  {
  }

  /** Past the end every byte is zero. */
  lemma ByteAtPastEnd(xs: seq<Extent>, p: nat)
    requires Ordered(xs) && p >= Size(xs)
    ensures ByteAt(xs, p) == 0
  {
    forall i | 0 <= i < |xs| ensures !(xs[i].offset <= p < xs[i].End()) {
      SizeBounds(xs, i);
    }
    ByteAtGap(xs, p);
  }

  // ----- search_extent

  /** The answer of the bisection between `a` and `b`. */
  function SearchFrom(xs: seq<Extent>, offset: nat, bias: SearchBias, a: int, b: int): Found
    requires -1 <= a < b <= |xs|
    decreases b - a
  {
    if b - a <= 1 then Between(if bias.Low? then a else b)
    else
      var i := a + (b - a) / 2;
      if offset < xs[i].offset then SearchFrom(xs, offset, bias, a, i)
      else if offset > xs[i].offset then SearchFrom(xs, offset, bias, i, b)
      else Exact(i)
  }

  function Search(xs: seq<Extent>, offset: nat, bias: SearchBias): Found
  {
    SearchFrom(xs, offset, bias, -1, |xs|)
  }

  /** On any list the neighbour returned starts below `offset`; on a sorted one it is the last such. */
  ghost predicate IsLocation(xs: seq<Extent>, offset: nat, r: Found)
  {
    match r
    case Exact(i) => i < |xs| && xs[i].offset == offset
    case Between(a) =>
      && -1 <= a < |xs|
      && (a >= 0 ==> xs[a].offset < offset)
      && (a + 1 < |xs| ==> offset < xs[a + 1].offset)
  }

  lemma {:induction false} SearchFromLocates(xs: seq<Extent>, offset: nat, a: int, b: int)
    requires -1 <= a < b <= |xs|
    requires a >= 0 ==> xs[a].offset < offset
    requires b < |xs| ==> offset < xs[b].offset
    ensures IsLocation(xs, offset, SearchFrom(xs, offset, Low, a, b))
    decreases b - a
  {
    if b - a > 1 {
      var i := a + (b - a) / 2;
      if offset < xs[i].offset {
        SearchFromLocates(xs, offset, a, i);
      } else if offset > xs[i].offset {
        SearchFromLocates(xs, offset, i, b);
      }
    }
  }

  lemma SearchLocates(xs: seq<Extent>, offset: nat)
    ensures IsLocation(xs, offset, Search(xs, offset, Low))
  {
    SearchFromLocates(xs, offset, -1, |xs|);
  }

  /** The index at which reading and writing start. */
  function Start(xs: seq<Extent>, offset: nat): int
  {
    match Search(xs, offset, Low) case Exact(i) => i case Between(a) => a
  }

  lemma StartIsLast(xs: seq<Extent>, offset: nat)
    ensures -1 <= Start(xs, offset) < |xs|
    ensures Start(xs, offset) >= 0 ==> xs[Start(xs, offset)].offset <= offset
    ensures Ordered(xs) ==> forall j :: Start(xs, offset) < j < |xs| ==> offset <= xs[j].offset
    ensures Ordered(xs) ==> forall j :: 0 <= j < Start(xs, offset) ==> xs[j].End() <= offset
  {
    SearchLocates(xs, offset);
  }

  // ----- truncate

  function Truncated(xs: seq<Extent>, size: nat): seq<Extent>
  {
    SearchLocates(xs, size);
    match Search(xs, size, Low)
    case Exact(i) => xs[..i]
    case Between(a) =>
      if a < 0 then []
      else xs[..a] + [Extent(xs[a].offset, xs[a].data[..Min(size - xs[a].offset, |xs[a].data|)])]
  }

  /** `ys` is `xs` with everything from `size` on cut off. */
  ghost predicate CutAt(xs: seq<Extent>, ys: seq<Extent>, size: nat)
  {
    && |ys| <= |xs|
    && (forall i :: 0 <= i < |ys| ==> ys[i].offset == xs[i].offset < size && ys[i].data <= xs[i].data)
    && (forall i :: 0 <= i < |ys| ==> ys[i].End() == Min(size, xs[i].End()))
    && (forall i :: |ys| <= i < |xs| ==> size <= xs[i].offset)
  }

  lemma TruncatedIsCut(xs: seq<Extent>, size: nat)
    requires Sorted(xs)
    ensures CutAt(xs, Truncated(xs, size), size)
  {
    SearchLocates(xs, size);
    match Search(xs, size, Low) {
      case Exact(i) => CutBefore(xs, i, size);
      case Between(a) => if a >= 0 { CutInside(xs, a, size); }
    }
  }

  /** Everything from an extent that starts at the cut goes. */
  lemma CutBefore(xs: seq<Extent>, i: nat, size: nat)
    requires Sorted(xs) && i < |xs| && xs[i].offset == size
    ensures CutAt(xs, xs[..i], size)
  {
  }

  /** The last extent that starts below the cut is shortened. */
  lemma CutInside(xs: seq<Extent>, a: nat, size: nat)
    requires Sorted(xs) && a < |xs| && xs[a].offset < size && (a + 1 < |xs| ==> size < xs[a + 1].offset)
    ensures CutAt(xs, xs[..a] + [Extent(xs[a].offset, xs[a].data[..Min(size - xs[a].offset, |xs[a].data|)])], size)
  {
  }

  lemma CutByte(xs: seq<Extent>, ys: seq<Extent>, size: nat, p: nat)
    requires Sorted(xs) && Sorted(ys) && CutAt(xs, ys, size)
    ensures ByteAt(ys, p) == if p < size then ByteAt(xs, p) else 0
  {
    if i :| 0 <= i < |ys| && ys[i].offset <= p < ys[i].End() {
      ByteAtCovered(ys, i, p);
      ByteAtCovered(xs, i, p);
    } else {
      ByteAtGap(ys, p);
      if p < size {
        forall i | 0 <= i < |xs| ensures !(xs[i].offset <= p < xs[i].End()) {
          if i < |ys| { assert !(ys[i].offset <= p < ys[i].End()); }
        }
        ByteAtGap(xs, p);
      }
    }
  }

  lemma TruncatedShape(xs: seq<Extent>, size: nat, block: nat)
    requires block > 0 && WellFormed(xs, block)
    ensures CutAt(xs, Truncated(xs, size), size)
    ensures WellFormed(Truncated(xs, size), block) && Size(Truncated(xs, size)) <= Min(size, Size(xs))
  {
    var ys := Truncated(xs, size);
    TruncatedIsCut(xs, size);
    if ys != [] { SizeBounds(xs, |ys| - 1); }
  }

  /** Truncation keeps exactly the bytes below the cut. */
  lemma TruncateKeepsBelowCut(xs: seq<Extent>, size: nat, block: nat)
    requires block > 0 && WellFormed(xs, block)
    ensures WellFormed(Truncated(xs, size), block)
    ensures Size(Truncated(xs, size)) <= Min(size, Size(xs))
    ensures forall p: nat :: ByteAt(Truncated(xs, size), p) == if p < size then ByteAt(xs, p) else 0
  {
    var ys := Truncated(xs, size);
    TruncatedShape(xs, size, block);
    forall p: nat ensures ByteAt(ys, p) == if p < size then ByteAt(xs, p) else 0 {
      CutByte(xs, ys, size, p);
    }
  }

  predicate NoEmptyExtent(xs: seq<Extent>)
  {
    forall i :: 0 <= i < |xs| ==> xs[i].data != []
  }

  /** The cut lies in the data of some extent, or right behind it. */
  predicate CutsData(xs: seq<Extent>, size: nat)
  {
    exists i :: 0 <= i < |xs| && xs[i].offset < size <= xs[i].End()
  }

  /** The last extent that starts below the cut. */
  function LastBelow(xs: seq<Extent>, size: nat): int
  {
    match Search(xs, size, Low) case Exact(i) => i - 1 case Between(a) => a
  }

  lemma TruncatedEnd(xs: seq<Extent>, size: nat)
    requires Sorted(xs) && NoEmptyExtent(xs)
    ensures -1 <= LastBelow(xs, size) < |xs|
    ensures var a := LastBelow(xs, size);
            && (a >= 0 ==> xs[a].offset < size) && (a + 1 < |xs| ==> size <= xs[a + 1].offset)
            && Size(Truncated(xs, size)) == if a < 0 then 0 else Min(size, xs[a].End())
  {
    SearchLocates(xs, size);
    var a := LastBelow(xs, size);
    if Search(xs, size, Low).Exact? && a >= 0 {
      assert xs[a].End() <= size;
    }
  }

  /** The size becomes the cut exactly when the cut falls in data: a cut in a hole leaves the file
      ending where the data before the hole ends. */
  lemma TruncatedSize(xs: seq<Extent>, size: nat)
    requires Sorted(xs) && NoEmptyExtent(xs)
    ensures Size(Truncated(xs, size)) == Min(size, Size(xs)) <==>
              size == 0 || size >= Size(xs) || CutsData(xs, size)
  {
    TruncatedEnd(xs, size);
    var a := LastBelow(xs, size);
    if a >= 0 {
      SizeBounds(xs, a);
      if size <= xs[a].End() { assert CutsData(xs, size); }
    }
    if i :| 0 <= i < |xs| && xs[i].offset < size <= xs[i].End() {
      assert i == a;
    }
    if a + 1 < |xs| { SizeBounds(xs, a + 1); }
  }

  // ----- read

  /** `before` with zeros from `pos` to `at` and `data` behind them. */
  lemma FilledGap(before: seq<byte>, middle: seq<byte>, after: seq<byte>, pos: nat, at: nat, data: seq<byte>,
          avail: nat)
    requires pos <= at && at + |data| <= avail <= |before|
    requires middle == Over(before, pos, Zeros(at - pos)) && after == Over(middle, at, data)
    ensures |after| == |before| && after[..pos] == before[..pos] && after[avail..] == before[avail..]
    ensures after[pos..at + |data|] == Zeros(at - pos) + data
  {
  }

  /** `before` with `data` written over it from `pos` on. */
  lemma Copied(before: seq<byte>, after: seq<byte>, pos: nat, data: seq<byte>, avail: nat)
    requires pos + |data| <= avail <= |before| && after == Over(before, pos, data)
    ensures |after| == |before| && after[..pos] == before[..pos] && after[avail..] == before[avail..]
    ensures after[pos..pos + |data|] == data
  {
  }

  /** Strictly inside a hole: behind the end of one extent, before the start of the next. */
  predicate InHole(xs: seq<Extent>, offset: nat)
  {
    exists i :: 0 <= i < |xs| - 1 && xs[i].End() < offset < xs[i + 1].offset
  }

  /** Where a read may start. */
  predicate Readable(xs: seq<Extent>, offset: nat)
  {
    offset <= Size(xs) && !InHole(xs, offset)
  }

  /** The located extent reaches the offset exactly when the offset is readable. */
  lemma ReadableStart(xs: seq<Extent>, offset: nat)
    requires Ordered(xs) && offset <= Size(xs)
    ensures -1 <= Start(xs, offset) < |xs|
    ensures Readable(xs, offset) <==> Start(xs, offset) < 0 || offset <= xs[Start(xs, offset)].End()
  {
    SearchLocates(xs, offset);
    StartIsLast(xs, offset);
    var s := Start(xs, offset);
    if s >= 0 && xs[s].End() < offset {
      assert s != |xs| - 1;
      assert xs[s].End() < offset < xs[s + 1].offset;
      assert InHole(xs, offset);
    }
    if i :| 0 <= i < |xs| - 1 && xs[i].End() < offset < xs[i + 1].offset {
      assert i == s;
    }
  }

  lemma {:induction false} IndexBelowOffset(xs: seq<Extent>, i: nat)
    requires Sorted(xs) && i < |xs|
    ensures i <= xs[i].offset
  {
    if i > 0 { IndexBelowOffset(xs, i - 1); }
  }

  /** The `n` bytes of the file from `offset`. */
  function Window(xs: seq<Extent>, offset: nat, n: nat): (w: seq<byte>)
    ensures |w| == n
    ensures forall k {:trigger w[k]} :: 0 <= k < n ==> w[k] == ByteAt(xs, offset + k)
  {
    seq<byte>(n, k requires k >= 0 => ByteAt(xs, offset + k))
  }

  lemma WindowSplit(xs: seq<Extent>, offset: nat, m: nat, n: nat)
    ensures Window(xs, offset, m + n) == Window(xs, offset, m) + Window(xs, offset + m, n)
  {
  }

  /** Between the extents before index `i` and those from `i` on the window is zero. */
  lemma WindowInHole(xs: seq<Extent>, i: nat, offset: nat, n: nat)
    requires i <= |xs|
    requires forall j :: 0 <= j < i ==> xs[j].End() <= offset
    requires forall j :: i <= j < |xs| ==> offset + n <= xs[j].offset
    ensures Window(xs, offset, n) == Zeros(n)
  {
    forall k | 0 <= k < n ensures Window(xs, offset, n)[k] == 0 {
      ByteAtGap(xs, offset + k);
    }
  }

  lemma WindowInExtent(xs: seq<Extent>, i: nat, offset: nat, n: nat)
    requires Ordered(xs) && i < |xs| && xs[i].offset <= offset && offset + n <= xs[i].End()
    ensures Window(xs, offset, n) == xs[i].data[offset - xs[i].offset..][..n]
  {
    forall k | 0 <= k < n ensures Window(xs, offset, n)[k] == xs[i].data[offset - xs[i].offset + k] {
      ByteAtCovered(xs, i, offset + k);
    }
  }

  /** What one extent contributes to a read at position `p` with `room` bytes left to fill: zeros up
      to the extent, then its bytes. None when the extent ends before `p`. */
  function Piece(x: Extent, p: nat, room: nat): (r: Option<seq<byte>>)
    requires x.offset <= p + room
    ensures r.Some? ==> |r.value| <= room
  {
    if x.End() < p then None
    else if x.offset <= p then Some(x.data[p - x.offset..][..Min(x.End() - p, room)])
    else Some(Zeros(x.offset - p) + x.data[..Min(|x.data|, room - (x.offset - p))])
  }

  /** What a read puts into its buffer after `got`: `room` bytes from position `p`, from extent `i` on. */
  function ReadFrom(xs: seq<Extent>, i: nat, p: nat, room: nat, got: seq<byte>): (r: Option<seq<byte>>)
    requires i <= |xs|
    decreases |xs| - i
  {
    if i == |xs| || xs[i].offset > p + room then Some(got + Zeros(room))
    else match Piece(xs[i], p, room)
      case None => None
      case Some(w) => ReadFrom(xs, i + 1, p + |w|, room - |w|, got + w)
  }

  lemma PieceIsWindow(xs: seq<Extent>, i: nat, p: nat, room: nat)
    requires Ordered(xs) && i < |xs| && xs[i].offset <= p + room
    requires forall j :: 0 <= j < i ==> xs[j].End() <= p
    ensures Piece(xs[i], p, room).Some? ==>
              var w := Piece(xs[i], p, room).value; w == Window(xs, p, |w|)
  {
    var x := xs[i];
    if p < x.offset {
      var z := x.offset - p;
      var n := Min(|x.data|, room - z);
      WindowInHole(xs, i, p, z);
      WindowInExtent(xs, i, x.offset, n);
      WindowSplit(xs, p, z, n);
    } else if p <= x.End() {
      WindowInExtent(xs, i, p, Min(x.End() - p, room));
    }
  }

  /** Reading on from any extent that reaches `p` gives the flat contents. */
  lemma {:induction false} ReadFromIsWindow(xs: seq<Extent>, i: nat, p: nat, room: nat, got: seq<byte>)
    requires Ordered(xs) && i <= |xs|
    requires forall j :: 0 <= j < i ==> xs[j].End() <= p
    ensures ReadFrom(xs, i, p, room, got).Some? <==>
              i == |xs| || xs[i].offset > p + room || p <= xs[i].End()
    ensures ReadFrom(xs, i, p, room, got).Some? ==>
              ReadFrom(xs, i, p, room, got).value == got + Window(xs, p, room)
    decreases |xs| - i
  {
    if i == |xs| || xs[i].offset > p + room {
      WindowInHole(xs, i, p, room);
    } else if Piece(xs[i], p, room).Some? {
      var w := Piece(xs[i], p, room).value;
      PieceIsWindow(xs, i, p, room);
      WindowSplit(xs, p, |w|, room - |w|);
      if p + |w| == xs[i].End() {
        ReadFromIsWindow(xs, i + 1, p + |w|, room - |w|, got + w);
      }
    }
  }

  /** Reading on from the located extent. */
  lemma LocatedReadIsWindow(xs: seq<Extent>, offset: nat, n: nat)
    requires Ordered(xs) && offset + n <= Size(xs)
    ensures Max(Start(xs, offset), 0) <= |xs|
    ensures var r := ReadFrom(xs, Max(Start(xs, offset), 0), offset, n, []);
            && (r.Some? <==> Readable(xs, offset))
            && (r.Some? ==> r.value == Window(xs, offset, n))
  {
    ReadableStart(xs, offset);
    StartIsLast(xs, offset);
    ReadFromIsWindow(xs, Max(Start(xs, offset), 0), offset, n, []);
    assert [] + Window(xs, offset, n) == Window(xs, offset, n);
  }

  /** The extent a read starts from, unless the source's assertion about its index fails. */
  function FirstRead(xs: seq<Extent>, offset: nat): (r: Option<nat>)
    ensures r.Some? ==> r.value == Max(Start(xs, offset), 0) <= |xs|
  {
    SearchLocates(xs, offset);
    match Search(xs, offset, Low)
    case Exact(i) => Some(i)
    case Between(a) => if Max(a, 0) > Size(xs) then None else Some(Max(a, 0))
  }

  /** What a read of up to `n` bytes at `offset` returns; None when it panics. */
  function ReadResult(xs: seq<Extent>, offset: nat, n: nat): Option<seq<byte>>
  {
    if offset > Size(xs) then None
    else match FirstRead(xs, offset)
      case None => None
      case Some(i) => ReadFrom(xs, i, offset, Min(n, Size(xs) - offset), [])
  }

  /** Every extent starts at its index or above, as in any list of extents at different offsets. */
  predicate Spaced(xs: seq<Extent>)
  {
    forall i :: 0 <= i < |xs| ==> i <= xs[i].offset
  }

  lemma SortedIsSpaced(xs: seq<Extent>)
    requires Sorted(xs)
    ensures Spaced(xs)
  {
    forall i | 0 <= i < |xs| ensures i <= xs[i].offset {
      IndexBelowOffset(xs, i);
    }
  }

  lemma MayRead(xs: seq<Extent>, offset: nat)
    requires Spaced(xs) && offset <= Size(xs)
    ensures FirstRead(xs, offset).Some?
  {
    SearchLocates(xs, offset);
  }

  /** On a list in order a read succeeds exactly where it may start, and returns the flat contents. */
  lemma ReadResultIsWindow(xs: seq<Extent>, offset: nat, n: nat)
    requires Ordered(xs) && Spaced(xs)
    ensures ReadResult(xs, offset, n).Some? <==> Readable(xs, offset)
    ensures Readable(xs, offset) ==>
              ReadResult(xs, offset, n) == Some(Window(xs, offset, Min(n, Size(xs) - offset)))
  {
    if offset <= Size(xs) {
      var m := Min(n, Size(xs) - offset);
      MayRead(xs, offset);
      assert ReadResult(xs, offset, n) == ReadFrom(xs, FirstRead(xs, offset).value, offset, m, []);
      LocatedReadIsWindow(xs, offset, m);
    }
  }

  // ----- what a file reads as

  /** What a read of up to `n` bytes at `offset` should return of `f`. */
  function Part(f: seq<byte>, offset: nat, n: nat): seq<byte>
    requires offset <= |f|
  {
    f[offset..offset + Min(n, |f| - offset)]
  }

  /** A read that succeeds returns its part of `f`. */
  ghost predicate ReadsPart(xs: seq<Extent>, f: seq<byte>, offset: nat, n: nat)
  {
    ReadResult(xs, offset, n).Some? ==> offset <= |f| && ReadResult(xs, offset, n).value == Part(f, offset, n)
  }

  /** What callers see of a file is `f`: its size, a read of the whole, and every other read that succeeds. */
  ghost predicate ReadsAs(xs: seq<Extent>, f: seq<byte>)
  {
    && Size(xs) == |f| && ReadResult(xs, 0, |f|) == Some(f)
    && forall offset: nat, n: nat :: ReadsPart(xs, f, offset, n)
  }

  lemma WindowOfFlat(xs: seq<Extent>, offset: nat, n: nat)
    requires offset + n <= Size(xs)
    ensures Window(xs, offset, n) == Flat(xs)[offset..offset + n]
  {
  }

  lemma FlatReadsPart(xs: seq<Extent>, offset: nat, n: nat)
    requires Ordered(xs) && Spaced(xs)
    ensures ReadsPart(xs, Flat(xs), offset, n)
  {
    ReadResultIsWindow(xs, offset, n);
    if offset <= Size(xs) { WindowOfFlat(xs, offset, Min(n, Size(xs) - offset)); }
  }

  lemma FlatReadsWhole(xs: seq<Extent>)
    requires Ordered(xs) && Spaced(xs)
    ensures ReadResult(xs, 0, Size(xs)) == Some(Flat(xs))
  {
    ReadResultIsWindow(xs, 0, Size(xs));
    WindowOfFlat(xs, 0, Size(xs));
    assert Flat(xs)[0..Size(xs)] == Flat(xs);
  }

  /** A list in order reads as its flat contents and as nothing else. */
  lemma ReadsAsFlat(xs: seq<Extent>, f: seq<byte>)
    requires Ordered(xs) && Spaced(xs)
    ensures ReadsAs(xs, f) <==> Flat(xs) == f
  {
    FlatReadsWhole(xs);
    if Flat(xs) == f {
      forall offset: nat, n: nat ensures ReadsPart(xs, f, offset, n) {
        FlatReadsPart(xs, offset, n);
      }
    }
  }

  // ----- write

  /** `data` with `buf` copied over it from `at` on. */
  function Overlay(data: seq<byte>, at: nat, buf: seq<byte>): (r: seq<byte>)
    requires at + |buf| <= |data|
    ensures |r| == |data|
    ensures forall k :: 0 <= k < |r| ==> r[k] == if at <= k < at + |buf| then buf[k - at] else data[k]
  {
    data[..at] + buf + data[at + |buf|..]
  }

  /** `Vec::resize(n, 0)` to a larger size. */
  function Grown(data: seq<byte>, n: nat): (r: seq<byte>)
    requires |data| <= n
    ensures |r| == n && forall k :: 0 <= k < n ==> r[k] == if k < |data| then data[k] else 0
  {
    data + Zeros(n - |data|)
  }

  /** The extent made by the first write at or below everything written so far. */
  function NewExtent(buf: seq<byte>, offset: nat, block: nat): Extent
    requires block > 0
  {
    Extent(RoundDown(offset, block), Zeros(offset - RoundDown(offset, block)) + buf)
  }

  /** Moving the head of the following extent into the tail of `grown`, as the source does it. */
  function Merged(xs: seq<Extent>, i: nat, grown: Extent, over: nat, block: nat): Outcome<seq<Extent>>
    requires block > 0 && i + 1 < |xs|
  {
    var next := xs[i + 1];
    if over < next.offset then Panicked
    else
      var overBy := over - next.offset;
      var moveEnd := RoundUp(overBy, block);
      var moveSize := moveEnd - overBy;
      if moveSize > |grown.data| || moveSize > |next.data| || moveEnd > |next.data| then Panicked
      else
        var data := grown.data[..|grown.data| - moveSize] + next.data[..moveSize];
        Done(xs[i := Extent(grown.offset, data)][i + 1 := Extent(next.offset + moveEnd, next.data[moveEnd..])])
  }

  /** Writing into extent `i` without splitting the write. */
  function WriteInto(xs: seq<Extent>, i: nat, buf: seq<byte>, offset: nat, block: nat): Outcome<seq<Extent>>
    requires block > 0 && i < |xs| && xs[i].offset <= offset
  {
    var x := xs[i];
    var inOfs := offset - x.offset;
    var inEnd := inOfs + |buf|;
    if |x.data| >= inEnd then Done(xs[i := Extent(x.offset, Overlay(x.data, inOfs, buf))])
    else
      var last := i + 1 == |xs|;
      var grown := Extent(x.offset,
                          Overlay(Grown(x.data, if last then inEnd else RoundUp(inEnd, block)), inOfs, buf));
      if last || grown.End() <= x.offset then Done(xs[i := grown])
      else Merged(xs, i, grown, x.offset + inEnd, block)
  }

  /** `write`: the extents afterwards, when at most `stack` further calls may be nested. */
  function WriteAt(xs: seq<Extent>, buf: seq<byte>, offset: nat, block: nat, max: nat, stack: nat)
    : Outcome<seq<Extent>>
    requires block > 0
    decreases stack, |buf| + 1
  {
    if RoundUp(|buf|, block) > max then
      if max == 0 then Panicked else WriteChunks(xs, buf, offset, block, max, stack)
    else
      StartIsLast(xs, offset);
      var i := Start(xs, offset);
      if i < 0 then Done(xs + [NewExtent(buf, offset, block)])
      else
        var inOfs := offset - xs[i].offset;
        if RoundUp(inOfs + |buf|, block) <= max then WriteInto(xs, i, buf, offset, block)
        else if inOfs > max || max - inOfs > |buf| then Panicked
        else if stack == 0 then StackOverflow
        else
          var possible := max - inOfs;
          match WriteAt(xs, buf[..possible], offset, block, max, stack - 1)
          case Done(ys) => WriteAt(ys, buf[possible..], offset + possible, block, max, stack - 1)
          case failed => failed
  }

  /** The chunk loop of `write`. */
  function WriteChunks(xs: seq<Extent>, buf: seq<byte>, offset: nat, block: nat, max: nat, stack: nat)
    : Outcome<seq<Extent>>
    requires block > 0 && max > 0
    decreases stack, |buf|
  {
    if buf == [] then Done(xs)
    else if stack == 0 then StackOverflow
    else
      var n := Min(max, |buf|);
      match WriteAt(xs, buf[..n], offset, block, max, stack - 1)
      case Done(ys) => WriteChunks(ys, buf[n..], offset + n, block, max, stack)
      case failed => failed
  }

  // ----- what a write should do, and exactly when it does

  /** The byte at `p` once `buf` has been written at `offset`. */
  function WrittenByte(xs: seq<Extent>, buf: seq<byte>, offset: nat, p: nat): byte
  {
    if offset <= p < offset + |buf| then buf[p - offset] else ByteAt(xs, p)
  }

  /** A write that worked: the file reads as the old contents overwritten by `buf`. */
  ghost predicate Wrote(xs: seq<Extent>, buf: seq<byte>, offset: nat, r: Outcome<seq<Extent>>)
  {
    r.Done? && ReadsAs(r.value, FlatWrite(Flat(xs), offset, buf))
  }

  /** And left the list in order. */
  ghost predicate WroteInOrder(xs: seq<Extent>, buf: seq<byte>, offset: nat, block: nat, r: Outcome<seq<Extent>>)
    requires block > 0
  {
    Wrote(xs, buf, offset, r) && WellFormed(r.value, block)
  }

  /** In a list that is in order, that is a matter of its flat contents. */
  lemma WroteFlat(xs: seq<Extent>, buf: seq<byte>, offset: nat, ys: seq<Extent>)
    requires Ordered(ys) && Spaced(ys)
    ensures Wrote(xs, buf, offset, Done(ys)) <==> Flat(ys) == FlatWrite(Flat(xs), offset, buf)
  {
    ReadsAsFlat(ys, FlatWrite(Flat(xs), offset, buf));
  }

  lemma WroteByBytes(xs: seq<Extent>, buf: seq<byte>, offset: nat, ys: seq<Extent>)
    requires Ordered(xs)
    requires Size(ys) == Max(Size(xs), offset + |buf|)
    requires forall p: nat :: ByteAt(ys, p) == WrittenByte(xs, buf, offset, p)
    ensures Flat(ys) == FlatWrite(Flat(xs), offset, buf)
  {
    forall p | 0 <= p < Size(ys) ensures Flat(ys)[p] == FlatWrite(Flat(xs), offset, buf)[p] {
      if p >= Size(xs) { ByteAtPastEnd(xs, p); }
    }
  }

  lemma BytesIfWrote(xs: seq<Extent>, buf: seq<byte>, offset: nat, ys: seq<Extent>, p: nat)
    requires Ordered(xs) && p < Size(ys)
    requires Flat(ys) == FlatWrite(Flat(xs), offset, buf)
    ensures ByteAt(ys, p) == WrittenByte(xs, buf, offset, p)
  {
    assert Flat(ys)[p] == FlatWrite(Flat(xs), offset, buf)[p];
    if p >= Size(xs) { ByteAtPastEnd(xs, p); }
  }

  /** Replacing extent `i` by one that starts where it did and reaches at least as far. */
  lemma ByteAtReplaced(xs: seq<Extent>, i: nat, x: Extent, p: nat)
    requires i < |xs| && Ordered(xs) && Ordered(xs[i := x])
    requires x.offset == xs[i].offset && xs[i].End() <= x.End()
    ensures ByteAt(xs[i := x], p) == if x.offset <= p < x.End() then x.data[p - x.offset] else ByteAt(xs, p)
  {
    var ys := xs[i := x];
    if x.offset <= p < x.End() {
      ByteAtCovered(ys, i, p);
    } else if j :| 0 <= j < |xs| && xs[j].offset <= p < xs[j].End() {
      assert j != i && ys[j] == xs[j];
      ByteAtCovered(xs, j, p);
      ByteAtCovered(ys, j, p);
    } else {
      forall j | 0 <= j < |ys| ensures !(ys[j].offset <= p < ys[j].End()) {
        assert j != i ==> ys[j] == xs[j];
      }
      ByteAtGap(ys, p);
      ByteAtGap(xs, p);
    }
  }

  /** The extent a write lands in is the last one starting at or below it. */
  ghost predicate LandsIn(xs: seq<Extent>, i: nat, offset: nat)
  {
    i < |xs| && xs[i].offset <= offset && forall j :: i < j < |xs| ==> offset <= xs[j].offset
  }

  /** The write is confined to extent `i`, or needs no room of the extents after it. */
  predicate Confined(xs: seq<Extent>, i: nat, offset: nat, n: nat)
    requires i < |xs|
  {
    offset + n <= xs[i].End() || i + 1 == |xs|
  }

  lemma ConfinedWrites(xs: seq<Extent>, i: nat, buf: seq<byte>, offset: nat, block: nat)
    requires block > 0 && WellFormed(xs, block) && LandsIn(xs, i, offset)
    requires Confined(xs, i, offset, |buf|)
    ensures WroteInOrder(xs, buf, offset, block, WriteInto(xs, i, buf, offset, block))
  {
    var ys := WriteInto(xs, i, buf, offset, block).value;
    ConfinedShape(xs, i, buf, offset, block);
    forall p: nat ensures ByteAt(ys, p) == WrittenByte(xs, buf, offset, p) {
      ConfinedByte(xs, i, buf, offset, block, p);
    }
    SizeBounds(xs, i);
    WroteByBytes(xs, buf, offset, ys);
    SortedIsSpaced(ys);
    WroteFlat(xs, buf, offset, ys);
  }

  lemma ConfinedShape(xs: seq<Extent>, i: nat, buf: seq<byte>, offset: nat, block: nat)
    requires block > 0 && WellFormed(xs, block) && LandsIn(xs, i, offset)
    requires Confined(xs, i, offset, |buf|)
    ensures WriteInto(xs, i, buf, offset, block).Done?
    ensures var ys := WriteInto(xs, i, buf, offset, block).value;
            && |ys| == |xs| && ys == xs[i := ys[i]] && WellFormed(ys, block)
            && ys[i].offset == xs[i].offset && ys[i].End() == Max(xs[i].End(), offset + |buf|)
  {
    var ys := WriteInto(xs, i, buf, offset, block).value;
    assert forall j :: 0 <= j < |ys| && j != i ==> ys[j] == xs[j];
  }

  lemma ConfinedByte(xs: seq<Extent>, i: nat, buf: seq<byte>, offset: nat, block: nat, p: nat)
    requires block > 0 && WellFormed(xs, block) && LandsIn(xs, i, offset)
    requires Confined(xs, i, offset, |buf|)
    ensures WriteInto(xs, i, buf, offset, block).Done?
    ensures ByteAt(WriteInto(xs, i, buf, offset, block).value, p) == WrittenByte(xs, buf, offset, p)
  {
    var x, ys := xs[i], WriteInto(xs, i, buf, offset, block).value;
    ConfinedShape(xs, i, buf, offset, block);
    ByteAtReplaced(xs, i, ys[i], p);
    if x.offset <= p < x.End() { ByteAtCovered(xs, i, p); }
    else if p >= Size(xs) { ByteAtPastEnd(xs, p); }
  }

  /** What the merge needs to move the right bytes. It copies the head of the next extent; the bytes
      that belong behind the write are the ones `overBy` further on. */
  predicate MergeMoves(xs: seq<Extent>, i: nat, over: nat, block: nat)
    requires block > 0 && i + 1 < |xs|
  {
    var next := xs[i + 1];
    && next.offset <= over
    && var overBy := over - next.offset;
       var moveEnd := RoundUp(overBy, block);
       && moveEnd <= |next.data|
       && next.data[..moveEnd - overBy] == next.data[overBy..moveEnd]
  }

  /** What is left of the next extent starts before the one after it. */
  predicate MergeLeavesOrder(xs: seq<Extent>, i: nat, over: nat, block: nat)
    requires block > 0 && i + 1 < |xs| && xs[i + 1].offset <= over
  {
    i + 2 < |xs| ==> xs[i + 1].offset + RoundUp(over - xs[i + 1].offset, block) < xs[i + 2].offset
  }

  lemma SameRounding(base: nat, x: nat, next: nat, y: nat, block: nat)
    requires block > 0 && Aligned(base, block) && Aligned(next, block) && base + x == next + y
    ensures base + RoundUp(x, block) == next + RoundUp(y, block)
  {
    RoundDownAligned(x + block - 1, block);
    RoundDownAligned(y + block - 1, block);
    var a, b := base + RoundUp(x, block), next + RoundUp(y, block);
    AlignedSum(base, RoundUp(x, block), block);
    AlignedSum(next, RoundUp(y, block), block);
    AlignedAtMost(a, b, block);
    AlignedAtMost(b, a, block);
  }

  /** Growing extent `i` to a block boundary and cutting the next one at a boundary makes them meet. */
  lemma TailsMeet(xs: seq<Extent>, i: nat, over: nat, block: nat)
    requires block > 0 && WellFormed(xs, block) && i + 1 < |xs|
    requires xs[i].offset <= over && xs[i + 1].offset <= over
    ensures xs[i].offset + RoundUp(over - xs[i].offset, block) ==
              xs[i + 1].offset + RoundUp(over - xs[i + 1].offset, block)
  {
    var a, b := xs[i].offset, xs[i + 1].offset;
    assert Aligned(a, block) && Aligned(b, block);
    SameRounding(a, over - a, b, over - b, block);
  }

  /** The two extents a merging write leaves in place of extents `i` and `i + 1`. */
  lemma MergedShape(xs: seq<Extent>, i: nat, buf: seq<byte>, offset: nat, block: nat)
    requires block > 0 && WellFormed(xs, block) && LandsIn(xs, i, offset) && !Confined(xs, i, offset, |buf|)
    ensures WriteInto(xs, i, buf, offset, block).Done? <==>
              var over := offset + |buf|;
              xs[i + 1].offset <= over && RoundUp(over - xs[i + 1].offset, block) <= |xs[i + 1].data|
    ensures WriteInto(xs, i, buf, offset, block).Done? ==>
              var x, next, over := xs[i], xs[i + 1], offset + |buf|;
              var moveEnd := RoundUp(over - next.offset, block);
              var x', next' := WriteInto(xs, i, buf, offset, block).value[i],
                               WriteInto(xs, i, buf, offset, block).value[i + 1];
              && WriteInto(xs, i, buf, offset, block).value == xs[i := x'][i + 1 := next']
              && x'.offset == x.offset && x'.End() == next.offset + moveEnd
              && next' == Extent(next.offset + moveEnd, next.data[moveEnd..])
              && x'.data[..over - x.offset] == Overlay(Grown(x.data, over - x.offset), offset - x.offset, buf)
              && x'.data[over - x.offset..] == next.data[..moveEnd - (over - next.offset)]
  {
    var x, next, over := xs[i], xs[i + 1], offset + |buf|;
    var inEnd := over - x.offset;
    if next.offset <= over {
      TailsMeet(xs, i, over, block);
    }
  }

  /** Inside the grown extent. */
  lemma MergedHeadByte(xs: seq<Extent>, i: nat, buf: seq<byte>, offset: nat, ys: seq<Extent>, end: nat, p: nat)
    requires Ordered(xs) && Ordered(ys) && LandsIn(xs, i, offset) && i + 1 < |xs| == |ys|
    requires xs[i].End() < offset + |buf| <= end && xs[i].offset <= p < end == ys[i].End()
    requires xs[i].offset == ys[i].offset
    requires var x, over := xs[i], offset + |buf|;
             && ys[i].data[..over - x.offset] == Overlay(Grown(x.data, over - x.offset), offset - x.offset, buf)
             && end - over <= |xs[i + 1].data|
             && ys[i].data[over - x.offset..] == xs[i + 1].data[..end - over]
    ensures ByteAt(ys, p) == if offset + |buf| <= p then xs[i + 1].data[p - (offset + |buf|)]
                             else WrittenByte(xs, buf, offset, p)
  {
    var x, over := xs[i], offset + |buf|;
    ByteAtCovered(ys, i, p);
    if p < over {
      assert ys[i].data[p - x.offset] == ys[i].data[..over - x.offset][p - x.offset];
      if p < x.End() { ByteAtCovered(xs, i, p); }
      else if p < offset { ByteAtGap(xs, p); }
    } else {
      assert ys[i].data[p - x.offset] == ys[i].data[over - x.offset..][p - over];
    }
  }

  /** Lists that agree outside `i` and `i + 1` agree at every position those do not cover. */
  lemma MergedElsewhere(xs: seq<Extent>, i: nat, ys: seq<Extent>, p: nat)
    requires i + 1 < |xs| == |ys| && Ordered(xs) && Ordered(ys)
    requires forall j :: 0 <= j < |xs| && j != i && j != i + 1 ==> xs[j] == ys[j]
    requires forall j :: i <= j <= i + 1 ==> !(xs[j].offset <= p < xs[j].End()) && !(ys[j].offset <= p < ys[j].End())
    ensures ByteAt(xs, p) == ByteAt(ys, p)
  {
    if j :| 0 <= j < |xs| && xs[j].offset <= p < xs[j].End() {
      assert xs[j] == ys[j];
      ByteAtCovered(xs, j, p);
      ByteAtCovered(ys, j, p);
    } else {
      ByteAtGap(xs, p);
      ByteAtGap(ys, p);
    }
  }

  lemma MergedListByte(xs: seq<Extent>, i: nat, buf: seq<byte>, offset: nat, ys: seq<Extent>, end: nat, p: nat)
    requires Sorted(xs) && Ordered(ys) && LandsIn(xs, i, offset) && i + 1 < |xs| == |ys|
    requires xs[i].End() < offset + |buf| <= end == ys[i].End() && xs[i].offset == ys[i].offset
    requires var x, over := xs[i], offset + |buf|;
             && ys[i].data[..over - x.offset] == Overlay(Grown(x.data, over - x.offset), offset - x.offset, buf)
             && end - over <= |xs[i + 1].data|
             && ys[i].data[over - x.offset..] == xs[i + 1].data[..end - over]
    requires xs[i + 1].offset <= end <= xs[i + 1].End()
    requires ys[i + 1] == Extent(end, xs[i + 1].data[end - xs[i + 1].offset..])
    requires forall j :: 0 <= j < |xs| && j != i && j != i + 1 ==> xs[j] == ys[j]
    ensures ByteAt(ys, p) == if offset + |buf| <= p < end then xs[i + 1].data[p - (offset + |buf|)]
                             else WrittenByte(xs, buf, offset, p)
  {
    if xs[i].offset <= p < end {
      MergedHeadByte(xs, i, buf, offset, ys, end, p);
    } else if end <= p < xs[i + 1].End() {
      ByteAtCovered(ys, i + 1, p);
      ByteAtCovered(xs, i + 1, p);
    } else {
      MergedElsewhere(xs, i, ys, p);
    }
  }

  lemma MergedByte(xs: seq<Extent>, i: nat, buf: seq<byte>, offset: nat, block: nat, p: nat)
    requires block > 0 && WellFormed(xs, block) && LandsIn(xs, i, offset) && !Confined(xs, i, offset, |buf|)
    requires WriteInto(xs, i, buf, offset, block).Done?
    ensures xs[i + 1].offset <= offset + |buf|
    ensures var over := offset + |buf|;
            var moveEnd := RoundUp(over - xs[i + 1].offset, block);
            ByteAt(WriteInto(xs, i, buf, offset, block).value, p) ==
              if over <= p < xs[i + 1].offset + moveEnd then xs[i + 1].data[p - over]
              else WrittenByte(xs, buf, offset, p)
  {
    MergedShape(xs, i, buf, offset, block);
    var ys := WriteInto(xs, i, buf, offset, block).value;
    MergedOrder(xs, i, ys, block, offset + |buf|);
    MergedListByte(xs, i, buf, offset, ys, ys[i].End(), p);
  }

  /** A merging write works exactly when the bytes it moves are the right ones. */
  lemma MergeWritesExactly(xs: seq<Extent>, i: nat, buf: seq<byte>, offset: nat, block: nat)
    requires block > 0 && WellFormed(xs, block) && LandsIn(xs, i, offset) && !Confined(xs, i, offset, |buf|)
    ensures Wrote(xs, buf, offset, WriteInto(xs, i, buf, offset, block)) <==> MergeMoves(xs, i, offset + |buf|, block)
    ensures WroteInOrder(xs, buf, offset, block, WriteInto(xs, i, buf, offset, block)) <==>
              MergeMoves(xs, i, offset + |buf|, block) && MergeLeavesOrder(xs, i, offset + |buf|, block)
  {
    MergedShape(xs, i, buf, offset, block);
    var r := WriteInto(xs, i, buf, offset, block);
    if r.Done? {
      MergedOrder(xs, i, r.value, block, offset + |buf|);
      WroteFlat(xs, buf, offset, r.value);
      if MergeMoves(xs, i, offset + |buf|, block) {
        RightBytesSuffice(xs, i, buf, offset, block);
      } else if Wrote(xs, buf, offset, r) {
        RightBytesNeeded(xs, i, buf, offset, block);
      }
    }
  }

  /** Moving the boundary between two extents upwards keeps their order. */
  lemma BoundaryMoved(xs: seq<Extent>, i: nat, ys: seq<Extent>, shift: nat)
    requires Sorted(xs) && i + 1 < |xs| == |ys| && shift <= |xs[i + 1].data|
    requires forall j :: 0 <= j < |xs| && j != i && j != i + 1 ==> ys[j] == xs[j]
    requires ys[i].offset == xs[i].offset && ys[i].End() == xs[i + 1].offset + shift == ys[i + 1].offset
    requires ys[i + 1].End() == xs[i + 1].End()
    ensures Ordered(ys)
    ensures Sorted(ys) <==> (i + 2 < |xs| ==> ys[i + 1].offset < xs[i + 2].offset)
  {
    if i + 2 < |xs| && ys[i + 1].offset >= xs[i + 2].offset {
      assert ys[i + 2] == xs[i + 2];
    }
  }

  lemma MergedOrder(xs: seq<Extent>, i: nat, ys: seq<Extent>, block: nat, over: nat)
    requires block > 0 && WellFormed(xs, block) && i + 1 < |xs| == |ys| && xs[i + 1].offset <= over
    requires var moveEnd := RoundUp(over - xs[i + 1].offset, block);
             && moveEnd <= |xs[i + 1].data|
             && ys == xs[i := ys[i]][i + 1 := ys[i + 1]]
             && ys[i].offset == xs[i].offset && ys[i].End() == xs[i + 1].offset + moveEnd
             && ys[i + 1] == Extent(xs[i + 1].offset + moveEnd, xs[i + 1].data[moveEnd..])
    ensures Ordered(ys) && Spaced(ys) && (WellFormed(ys, block) <==> Sorted(ys))
    ensures Sorted(ys) <==> MergeLeavesOrder(xs, i, over, block)
    ensures Size(ys) == Size(xs)
  {
    var moveEnd := RoundUp(over - xs[i + 1].offset, block);
    RoundDownAligned(over - xs[i + 1].offset + block - 1, block);
    AlignedSum(xs[i + 1].offset, moveEnd, block);
    BoundaryMoved(xs, i, ys, moveEnd);
    SortedIsSpaced(xs);
    OffsetsMoved(xs, i, ys, block);
  }

  /** And their offsets aligned, and far enough apart. */
  lemma OffsetsMoved(xs: seq<Extent>, i: nat, ys: seq<Extent>, block: nat)
    requires block > 0 && WellFormed(xs, block) && Spaced(xs) && i + 1 < |xs| == |ys|
    requires forall j :: 0 <= j < |xs| && j != i + 1 ==> ys[j].offset == xs[j].offset
    requires ys[i + 1].offset >= xs[i + 1].offset && Aligned(ys[i + 1].offset, block)
    ensures Spaced(ys) && (WellFormed(ys, block) <==> Sorted(ys))
  {
  }

  lemma RightBytesSuffice(xs: seq<Extent>, i: nat, buf: seq<byte>, offset: nat, block: nat)
    requires block > 0 && WellFormed(xs, block) && LandsIn(xs, i, offset) && !Confined(xs, i, offset, |buf|)
    requires WriteInto(xs, i, buf, offset, block).Done?
    requires MergeMoves(xs, i, offset + |buf|, block)
    ensures Flat(WriteInto(xs, i, buf, offset, block).value) == FlatWrite(Flat(xs), offset, buf)
  {
    var ys := WriteInto(xs, i, buf, offset, block).value;
    MergedShape(xs, i, buf, offset, block);
    MergedOrder(xs, i, ys, block, offset + |buf|);
    SizeBounds(xs, i + 1);
    forall p: nat ensures ByteAt(ys, p) == WrittenByte(xs, buf, offset, p) {
      RightByte(xs, i, buf, offset, block, p);
    }
    WroteByBytes(xs, buf, offset, ys);
  }

  lemma RightByte(xs: seq<Extent>, i: nat, buf: seq<byte>, offset: nat, block: nat, p: nat)
    requires block > 0 && WellFormed(xs, block) && LandsIn(xs, i, offset) && !Confined(xs, i, offset, |buf|)
    requires WriteInto(xs, i, buf, offset, block).Done?
    requires MergeMoves(xs, i, offset + |buf|, block)
    ensures ByteAt(WriteInto(xs, i, buf, offset, block).value, p) == WrittenByte(xs, buf, offset, p)
  {
    MergedByte(xs, i, buf, offset, block, p);
    var over := offset + |buf|;
    var moveEnd := RoundUp(over - xs[i + 1].offset, block);
    if over <= p < xs[i + 1].offset + moveEnd { MovedIsOld(xs, i + 1, buf, offset, moveEnd, p); }
  }

  lemma MovedIsOld(xs: seq<Extent>, j: nat, buf: seq<byte>, offset: nat, moveEnd: nat, p: nat)
    requires Ordered(xs) && j < |xs|
    requires xs[j].offset <= offset + |buf| <= p < xs[j].offset + moveEnd && moveEnd <= |xs[j].data|
    requires var overBy := offset + |buf| - xs[j].offset;
             xs[j].data[..moveEnd - overBy] == xs[j].data[overBy..moveEnd]
    ensures xs[j].data[p - (offset + |buf|)] == WrittenByte(xs, buf, offset, p)
  {
    ByteAtCovered(xs, j, p);
    MovedByte(xs[j], offset + |buf|, moveEnd, p);
  }

  lemma MovedByte(next: Extent, over: nat, moveEnd: nat, p: nat)
    requires next.offset <= over <= p < next.offset + moveEnd && moveEnd <= |next.data|
    requires next.data[..moveEnd - (over - next.offset)] == next.data[over - next.offset..moveEnd]
    ensures next.data[p - over] == next.data[p - next.offset]
  {
    var overBy := over - next.offset;
    assert next.data[..moveEnd - overBy][p - over] == next.data[overBy..moveEnd][p - over];
  }

  lemma RightByteNeeded(xs: seq<Extent>, i: nat, buf: seq<byte>, offset: nat, block: nat, p: nat)
    requires block > 0 && WellFormed(xs, block) && LandsIn(xs, i, offset) && !Confined(xs, i, offset, |buf|)
    requires WriteInto(xs, i, buf, offset, block).Done?
    requires p < Size(WriteInto(xs, i, buf, offset, block).value)
    requires Flat(WriteInto(xs, i, buf, offset, block).value) == FlatWrite(Flat(xs), offset, buf)
    requires xs[i + 1].offset <= offset + |buf| <= p < xs[i + 1].End()
    requires p < xs[i + 1].offset + RoundUp(offset + |buf| - xs[i + 1].offset, block)
    ensures xs[i + 1].data[p - (offset + |buf|)] == xs[i + 1].data[p - xs[i + 1].offset]
  {
    MergedByte(xs, i, buf, offset, block, p);
    BytesIfWrote(xs, buf, offset, WriteInto(xs, i, buf, offset, block).value, p);
    ByteAtCovered(xs, i + 1, p);
  }

  /** Byte `p` behind the write is the one the merge put there. */
  ghost predicate MovedRight(next: Extent, over: nat, p: nat)
    requires next.offset <= over <= p < next.End()
  {
    next.data[p - over] == next.data[p - next.offset]
  }

  lemma SameHeads(next: Extent, over: nat, moveEnd: nat)
    requires next.offset <= over <= next.offset + moveEnd <= next.End()
    requires forall p :: over <= p < next.offset + moveEnd ==> MovedRight(next, over, p)
    ensures next.data[..moveEnd - (over - next.offset)] == next.data[over - next.offset..moveEnd]
  {
    var overBy := over - next.offset;
    forall k | 0 <= k < moveEnd - overBy ensures next.data[k] == next.data[overBy + k] {
      assert MovedRight(next, over, over + k);
    }
  }

  lemma RightBytesNeeded(xs: seq<Extent>, i: nat, buf: seq<byte>, offset: nat, block: nat)
    requires block > 0 && WellFormed(xs, block) && LandsIn(xs, i, offset) && !Confined(xs, i, offset, |buf|)
    requires WriteInto(xs, i, buf, offset, block).Done?
    requires Flat(WriteInto(xs, i, buf, offset, block).value) == FlatWrite(Flat(xs), offset, buf)
    ensures MergeMoves(xs, i, offset + |buf|, block)
  {
    var ys, next, over := WriteInto(xs, i, buf, offset, block).value, xs[i + 1], offset + |buf|;
    MergedShape(xs, i, buf, offset, block);
    MergedOrder(xs, i, ys, block, over);
    SizeBounds(xs, i + 1);
    forall p | over <= p < next.offset + RoundUp(over - next.offset, block) ensures MovedRight(next, over, p) {
      RightByteNeeded(xs, i, buf, offset, block, p);
    }
    SameHeads(next, over, RoundUp(over - next.offset, block));
  }

  // ----- writes below the first extent: a list with an extent pushed behind it that starts below it

  /** At any offset up to the start of the last extent the bisection goes as it did before the push. */
  lemma {:induction false} SearchBeforePushed(xs: seq<Extent>, ys: seq<Extent>, p: nat, a: int, b: int)
    requires xs != [] && p <= xs[|xs| - 1].offset && |ys| == |xs| + 1 && ys[..|xs|] == xs
    requires -1 <= a < b <= |ys| && b != |xs|
    requires a >= 0 ==> a < |xs| - 1 && xs[a].offset < p
    requires b < |xs| ==> p < xs[b].offset
    ensures IsLocation(xs, p, SearchFrom(ys, p, Low, a, b))
    decreases b - a
  {
    if b - a > 1 {
      var i := a + (b - a) / 2;
      assert xs[i] == ys[i];
      if p < xs[i].offset {
        SearchBeforePushed(xs, ys, p, a, i);
      } else if p > xs[i].offset {
        SearchBeforePushed(xs, ys, p, i, b);
      }
    }
  }

  lemma LocationUnique(xs: seq<Extent>, p: nat, r: Found, r': Found)
    requires Sorted(xs) && IsLocation(xs, p, r) && IsLocation(xs, p, r')
    ensures r == r'
  {
  }

  /** Behind that it ends at the extent pushed. */
  lemma {:induction false} SearchAllBelow(ys: seq<Extent>, p: nat, a: int)
    requires ys != [] && -1 <= a < |ys| && forall i :: 0 <= i < |ys| ==> ys[i].offset < p
    ensures SearchFrom(ys, p, Low, a, |ys|) == Between(|ys| - 1)
    decreases |ys| - a
  {
    if |ys| - a > 1 { SearchAllBelow(ys, p, a + (|ys| - a) / 2); }
  }

  lemma SearchPushed(xs: seq<Extent>, e: Extent, p: nat)
    requires Sorted(xs) && xs != [] && e.offset < xs[0].offset
    ensures p <= xs[|xs| - 1].offset ==> Search(xs + [e], p, Low) == Search(xs, p, Low)
    ensures p > xs[|xs| - 1].offset ==> Search(xs + [e], p, Low) == Between(|xs|)
  {
    if p <= xs[|xs| - 1].offset {
      SearchBeforePushed(xs, xs + [e], p, -1, |xs| + 1);
      SearchLocates(xs, p);
      LocationUnique(xs, p, Search(xs + [e], p, Low), Search(xs, p, Low));
    } else {
      SearchAllBelow(xs + [e], p, -1);
    }
  }

  /** What reading on from one of the old extents gives: the old contents, and behind them what `e` has. */
  function Mixed(xs: seq<Extent>, e: Extent): (f: seq<byte>)
    requires e.offset <= Size(xs) <= e.End()
    ensures |f| == e.End()
  {
    Flat(xs) + e.data[Size(xs) - e.offset..]
  }

  /** With no room left reading on adds nothing. */
  lemma {:induction false} ReadFromNothing(xs: seq<Extent>, i: nat, p: nat, got: seq<byte>)
    requires i <= |xs| && forall j :: i <= j < |xs| ==> p <= xs[j].End()
    ensures ReadFrom(xs, i, p, 0, got) == Some(got)
    decreases |xs| - i
  {
    assert got + Zeros(0) == got && got + [] == got;
    if i < |xs| && xs[i].offset <= p {
      assert Piece(xs[i], p, 0) == Some([]);
      ReadFromNothing(xs, i + 1, p, got);
    }
  }

  lemma ReadPushedExtent(xs: seq<Extent>, e: Extent, p: nat, room: nat, got: seq<byte>)
    requires e.offset <= p && p + room <= e.End()
    ensures ReadFrom(xs + [e], |xs|, p, room, got) == Some(got + e.data[p - e.offset..][..room])
  {
    var w := e.data[p - e.offset..][..room];
    assert (xs + [e])[|xs|] == e && Piece(e, p, room) == Some(w);
    assert got + w + Zeros(0) == got + w;
  }

  lemma {:induction false} ReadFromPushed(xs: seq<Extent>, e: Extent, i: nat, p: nat, room: nat, got: seq<byte>)
    requires Ordered(xs) && e.offset <= Size(xs) <= e.End() && i <= |xs| && p + room <= e.End()
    requires xs != [] && forall j :: 0 <= j < i ==> xs[j].End() <= p
    ensures ReadFrom(xs + [e], i, p, room, got).Some? <==>
              i == |xs| || xs[i].offset > p + room || p <= xs[i].End()
    ensures ReadFrom(xs + [e], i, p, room, got).Some? ==>
              ReadFrom(xs + [e], i, p, room, got).value == got + Mixed(xs, e)[p..p + room]
    decreases |xs| - i
  {
    if i == |xs| {
      ReadPushedExtent(xs, e, p, room, got);
      MixedBehind(xs, e, p, room);
    } else {
      SizeBounds(xs, i);
      assert (xs + [e])[i] == xs[i];
      if xs[i].offset > p + room {
        WindowInHole(xs, i, p, room);
        MixedBefore(xs, e, p, room);
      } else if Piece(xs[i], p, room).Some? {
        ReadPieceThenOn(xs, e, i, p, room, got);
      }
    }
  }

  lemma MixedBehind(xs: seq<Extent>, e: Extent, p: nat, room: nat)
    requires e.offset <= Size(xs) <= e.End() && Size(xs) <= p && p + room <= e.End()
    ensures Mixed(xs, e)[p..p + room] == e.data[p - e.offset..][..room]
  {
  }

  lemma MixedBefore(xs: seq<Extent>, e: Extent, p: nat, n: nat)
    requires e.offset <= Size(xs) <= e.End() && p + n <= Size(xs)
    ensures Mixed(xs, e)[p..p + n] == Window(xs, p, n)
  {
    WindowOfFlat(xs, p, n);
  }

  /** One turn of the loop, and the turns after it. */
  lemma {:induction false} ReadPieceThenOn(xs: seq<Extent>, e: Extent, i: nat, p: nat, room: nat, got: seq<byte>)
    requires Ordered(xs) && e.offset <= Size(xs) <= e.End() && i < |xs| && p + room <= e.End()
    requires xs[i].offset <= p + room && Piece(xs[i], p, room).Some?
    requires forall j :: 0 <= j < i ==> xs[j].End() <= p
    ensures ReadFrom(xs + [e], i, p, room, got) == Some(got + Mixed(xs, e)[p..p + room])
    decreases |xs| - i, 0
  {
    var w := Piece(xs[i], p, room).value;
    var q := p + |w|;
    PieceIsWindow(xs, i, p, room);
    SizeBounds(xs, i);
    MixedBefore(xs, e, p, |w|);
    assert (xs + [e])[i] == xs[i];
    if q == xs[i].End() {
      ReadFromPushed(xs, e, i + 1, q, room - |w|, got + w);
    } else {
      ReadEndsInside(xs, e, i, p, room, got + w);
    }
    MixedJoin(xs, e, p, |w|, room, got);
  }

  /** A piece that ends before its extent does takes all the room. */
  lemma ReadEndsInside(xs: seq<Extent>, e: Extent, i: nat, p: nat, room: nat, got: seq<byte>)
    requires Ordered(xs) && Size(xs) <= e.End() && i < |xs|
    requires xs[i].offset <= p + room && Piece(xs[i], p, room).Some?
    requires p + |Piece(xs[i], p, room).value| != xs[i].End()
    ensures |Piece(xs[i], p, room).value| == room
    ensures ReadFrom(xs + [e], i + 1, p + room, 0, got) == Some(got)
  {
    SizeBounds(xs, i);
    assert forall j :: i < j < |xs + [e]| ==> p + room <= (xs + [e])[j].End();
    ReadFromNothing(xs + [e], i + 1, p + room, got);
  }

  lemma MixedJoin(xs: seq<Extent>, e: Extent, p: nat, n: nat, room: nat, got: seq<byte>)
    requires e.offset <= Size(xs) <= e.End() && n <= room && p + room <= e.End()
    ensures got + Mixed(xs, e)[p..p + n] + Mixed(xs, e)[p + n..p + room] == got + Mixed(xs, e)[p..p + room]
  {
  }

  /** What any read of such a list returns. */
  lemma ReadPushed(xs: seq<Extent>, e: Extent, p: nat, n: nat)
    requires Sorted(xs) && xs != [] && e.offset < xs[0].offset && Size(xs) <= e.End() && p <= e.End()
    ensures e.offset <= Size(xs) && -1 <= Start(xs, p) < |xs|
    ensures var r := ReadResult(xs + [e], p, n);
            if p > xs[|xs| - 1].offset then r == Some(e.data[p - e.offset..][..Min(n, e.End() - p)])
            else
              && (r.Some? ==> r.value == Part(Mixed(xs, e), p, n))
              && (Start(xs, p) < 0 || p <= xs[Start(xs, p)].End() ==> r.Some?)
  {
    SizeBounds(xs, 0);
    SizeBounds(xs, |xs| - 1);
    SearchPushed(xs, e, p);
    SortedIsSpaced(xs);
    if p > xs[|xs| - 1].offset {
      StartIsLast(xs, p);
      ReadNewPart(xs, e, p, n);
    } else {
      ReadOldPart(xs, e, p, n);
    }
  }

  lemma ReadNewPart(xs: seq<Extent>, e: Extent, p: nat, n: nat)
    requires xs != [] && Spaced(xs) && e.offset <= p <= e.End() && xs[|xs| - 1].offset < p
    requires Search(xs + [e], p, Low) == Between(|xs|)
    ensures ReadResult(xs + [e], p, n) == Some(e.data[p - e.offset..][..Min(n, e.End() - p)])
  {
    var m := Min(n, e.End() - p);
    assert |xs| - 1 <= xs[|xs| - 1].offset;
    ReadFromFirst(xs + [e], p, n, |xs|);
    ReadPushedExtent(xs, e, p, m, []);
    assert [] + e.data[p - e.offset..][..m] == e.data[p - e.offset..][..m];
  }

  lemma OldFirstRead(xs: seq<Extent>, e: Extent, p: nat)
    requires Ordered(xs) && Spaced(xs) && xs != [] && p <= e.End() && Search(xs + [e], p, Low) == Search(xs, p, Low)
    ensures -1 <= Start(xs, p) < |xs| && FirstRead(xs + [e], p) == Some(Max(Start(xs, p), 0))
    ensures forall j :: 0 <= j < Max(Start(xs, p), 0) ==> xs[j].End() <= p
    ensures if Start(xs, p) < 0 then p < xs[0].offset else xs[Start(xs, p)].offset <= p
  {
    StartIsLast(xs, p);
    SearchLocates(xs, p);
  }

  lemma ReadOldPart(xs: seq<Extent>, e: Extent, p: nat, n: nat)
    requires Sorted(xs) && Spaced(xs) && xs != [] && e.offset <= Size(xs) <= e.End()
    requires p <= xs[|xs| - 1].offset && p <= e.End() && Search(xs + [e], p, Low) == Search(xs, p, Low)
    ensures -1 <= Start(xs, p) < |xs|
    ensures var r := ReadResult(xs + [e], p, n);
            && (r.Some? ==> r.value == Part(Mixed(xs, e), p, n))
            && (Start(xs, p) < 0 || p <= xs[Start(xs, p)].End() ==> r.Some?)
  {
    OldFirstRead(xs, e, p);
    ReadFirstPushed(xs, e, Max(Start(xs, p), 0), p, n);
  }

  lemma ReadFirstPushed(xs: seq<Extent>, e: Extent, i: nat, p: nat, n: nat)
    requires Ordered(xs) && e.offset <= Size(xs) <= e.End() && i < |xs| && p <= e.End()
    requires FirstRead(xs + [e], p) == Some(i) && forall j :: 0 <= j < i ==> xs[j].End() <= p
    ensures var r := ReadResult(xs + [e], p, n);
            && (r.Some? ==> r.value == Part(Mixed(xs, e), p, n))
            && (p <= xs[i].End() ==> r.Some?)
  {
    ReadFromFirst(xs + [e], p, n, i);
    ReadFromPushed(xs, e, i, p, Min(n, e.End() - p), []);
    PartOnly(Mixed(xs, e), p, n);
  }

  lemma PartOnly(f: seq<byte>, p: nat, n: nat)
    requires p <= |f|
    ensures [] + f[p..p + Min(n, |f| - p)] == Part(f, p, n)
  {
  }

  lemma ReadFromFirst(ys: seq<Extent>, p: nat, n: nat, i: nat)
    requires p <= Size(ys) && FirstRead(ys, p) == Some(i)
    ensures ReadResult(ys, p, n) == ReadFrom(ys, i, p, Min(n, Size(ys) - p), [])
  {
  }

  /** The buffer reaches the end of the file and starts with everything the file holds from `offset` on. */
  predicate Repeats(xs: seq<Extent>, buf: seq<byte>, offset: nat)
  {
    offset <= Size(xs) && Flat(xs)[offset..] <= buf
  }

  /** Then, and only then, the old contents go on into the new ones. */
  lemma MixedIsWritten(xs: seq<Extent>, buf: seq<byte>, offset: nat, block: nat)
    requires block > 0 && RoundDown(offset, block) <= offset <= Size(xs) <= offset + |buf|
    ensures var e := NewExtent(buf, offset, block);
            && e.offset <= Size(xs) <= e.End() == offset + |buf|
            && (Mixed(xs, e) == FlatWrite(Flat(xs), offset, buf) <==> Repeats(xs, buf, offset))
  {
    var zeros := Zeros(offset - RoundDown(offset, block));
    DropZeros(zeros, buf, Size(xs) - RoundDown(offset, block));
    OverTheEnd(Flat(xs), offset, buf);
    MixAgrees(Flat(xs), offset, buf);
  }

  lemma DropZeros(zeros: seq<byte>, buf: seq<byte>, n: nat)
    requires |zeros| <= n <= |zeros| + |buf|
    ensures (zeros + buf)[n..] == buf[n - |zeros|..]
  {
  }

  lemma OverTheEnd(f: seq<byte>, offset: nat, buf: seq<byte>)
    requires offset <= |f| <= offset + |buf|
    ensures FlatWrite(f, offset, buf) == f[..offset] + buf
  {
  }

  /** `f` going on into what `buf` has behind its end, and `buf` put over the end of `f`. */
  lemma MixAgrees(f: seq<byte>, offset: nat, buf: seq<byte>)
    requires offset <= |f| <= offset + |buf|
    ensures f + buf[|f| - offset..] == f[..offset] + buf <==> f[offset..] <= buf
  {
    var n := |f| - offset;
    assert f == f[..offset] + f[offset..] && buf == buf[..n] + buf[n..];
    if f + buf[n..] == f[..offset] + buf {
      assert (f + buf[n..])[offset..offset + n] == f[offset..];
      assert (f[..offset] + buf)[offset..offset + n] == buf[..n];
    }
  }

  /** Such a write pushes an extent at the end. It works exactly if the buffer starts with what the file
      holds from there on: otherwise reads from below still find what was written over, zeros included. */
  lemma LowWriteExactly(xs: seq<Extent>, buf: seq<byte>, offset: nat, block: nat)
    requires block > 0 && Sorted(xs) && xs != [] && offset < xs[0].offset
    ensures Wrote(xs, buf, offset, Done(xs + [NewExtent(buf, offset, block)])) <==> Repeats(xs, buf, offset)
  {
    var e, f := NewExtent(buf, offset, block), FlatWrite(Flat(xs), offset, buf);
    SizeBounds(xs, 0);
    if Size(xs) <= offset + |buf| {
      MixedIsWritten(xs, buf, offset, block);
      ReadPushed(xs, e, 0, |f|);
      StartIsLast(xs, 0);
      assert Part(Mixed(xs, e), 0, |f|) == Mixed(xs, e);
      if Repeats(xs, buf, offset) {
        forall p: nat, n: nat ensures ReadsPart(xs + [e], f, p, n) {
          LowReadsPart(xs, buf, offset, block, p, n);
        }
      }
    } else {
      assert Size(xs + [e]) == offset + |buf| < |f|;
    }
  }

  lemma LowReadsPart(xs: seq<Extent>, buf: seq<byte>, offset: nat, block: nat, p: nat, n: nat)
    requires block > 0 && Sorted(xs) && xs != [] && offset < xs[0].offset && Size(xs) <= offset + |buf|
    requires Repeats(xs, buf, offset)
    ensures ReadsPart(xs + [NewExtent(buf, offset, block)], FlatWrite(Flat(xs), offset, buf), p, n)
  {
    var e, f := NewExtent(buf, offset, block), FlatWrite(Flat(xs), offset, buf);
    if p <= e.End() {
      MixedIsWritten(xs, buf, offset, block);
      ReadPushed(xs, e, p, n);
      if p > xs[|xs| - 1].offset {
        assert xs[0].offset <= xs[|xs| - 1].offset;
        PushedIsWritten(xs, buf, offset, block, p, n);
      }
    }
  }

  lemma PushedIsWritten(xs: seq<Extent>, buf: seq<byte>, offset: nat, block: nat, p: nat, n: nat)
    requires block > 0 && offset <= p <= offset + |buf| && Size(xs) <= offset + |buf|
    ensures var e := NewExtent(buf, offset, block);
            && e.offset <= p <= e.End() == |FlatWrite(Flat(xs), offset, buf)|
            && e.data[p - e.offset..][..Min(n, e.End() - p)] == Part(FlatWrite(Flat(xs), offset, buf), p, n)
  {
  }

  // ----- any unsplit write

  /** Exactly when an unsplit write to a well-formed list works: it is the first, it stays within its
      extent or the file's last one, or the merge happens to move the right bytes. A write starting
      below the first extent works if it repeats everything the file holds from there on. */
  predicate WriteWorks(xs: seq<Extent>, buf: seq<byte>, offset: nat, block: nat)
    requires block > 0
  {
    StartIsLast(xs, offset);
    var i := Start(xs, offset);
    if i < 0 then xs == [] || Repeats(xs, buf, offset)
    else Confined(xs, i, offset, |buf|) || MergeMoves(xs, i, offset + |buf|, block)
  }

  /** And when it leaves the extents in order. */
  predicate WriteKeepsOrder(xs: seq<Extent>, buf: seq<byte>, offset: nat, block: nat)
    requires block > 0
  {
    StartIsLast(xs, offset);
    var i := Start(xs, offset);
    if i < 0 then xs == []
    else
      || Confined(xs, i, offset, |buf|)
      || (MergeMoves(xs, i, offset + |buf|, block) && MergeLeavesOrder(xs, i, offset + |buf|, block))
  }

  predicate Unsplit(xs: seq<Extent>, offset: nat, n: nat, max: nat)
  {
    StartIsLast(xs, offset);
    var i := Start(xs, offset);
    n <= max && (i >= 0 ==> offset + n <= xs[i].offset + max)
  }

  lemma FirstWrite(buf: seq<byte>, offset: nat, block: nat)
    requires block > 0
    ensures WroteInOrder([], buf, offset, block, Done([NewExtent(buf, offset, block)]))
  {
    var ys := [NewExtent(buf, offset, block)];
    RoundDownAligned(offset, block);
    forall p: nat ensures ByteAt(ys, p) == WrittenByte([], buf, offset, p) {
      assert ys[1..] == [];
      if ys[0].offset <= p < ys[0].End() { assert ByteAt(ys, p) == ys[0].data[p - ys[0].offset]; }
    }
    WroteByBytes([], buf, offset, ys);
    WroteFlat([], buf, offset, ys);
  }

  lemma WriteBelow(xs: seq<Extent>, buf: seq<byte>, offset: nat, block: nat, max: nat, stack: nat)
    requires block > 0 && Aligned(max, block) && WellFormed(xs, block) && |buf| <= max && Start(xs, offset) < 0
    ensures WriteAt(xs, buf, offset, block, max, stack) == Done(xs + [NewExtent(buf, offset, block)])
    ensures Wrote(xs, buf, offset, Done(xs + [NewExtent(buf, offset, block)])) <==> xs == [] || Repeats(xs, buf, offset)
    ensures WroteInOrder(xs, buf, offset, block, Done(xs + [NewExtent(buf, offset, block)])) <==> xs == []
  {
    RoundUpAbove(|buf|, max, block);
    if xs == [] {
      FirstWrite(buf, offset, block);
      assert xs + [NewExtent(buf, offset, block)] == [NewExtent(buf, offset, block)];
    } else {
      SearchLocates(xs, offset);
      LowWriteExactly(xs, buf, offset, block);
      var ys := xs + [NewExtent(buf, offset, block)];
      assert ys[0] == xs[0] && ys[|xs|].offset < ys[0].offset;
    }
  }

  /** The main statement about one write: on every well-formed list it leaves the contents it should,
      and leaves them in order, exactly under conditions on the extents, whatever the stack. */
  lemma WriteExactly(xs: seq<Extent>, buf: seq<byte>, offset: nat, block: nat, max: nat, stack: nat)
    requires block > 0 && Aligned(max, block) && WellFormed(xs, block)
    requires Unsplit(xs, offset, |buf|, max)
    ensures Wrote(xs, buf, offset, WriteAt(xs, buf, offset, block, max, stack)) <==>
              WriteWorks(xs, buf, offset, block)
    ensures WroteInOrder(xs, buf, offset, block, WriteAt(xs, buf, offset, block, max, stack)) <==>
              WriteKeepsOrder(xs, buf, offset, block)
  {
    StartIsLast(xs, offset);
    var i := Start(xs, offset);
    if i < 0 {
      WriteBelow(xs, buf, offset, block, max, stack);
    } else {
      RoundUpAbove(|buf|, max, block);
      RoundUpAbove(offset - xs[i].offset + |buf|, max, block);
      if Confined(xs, i, offset, |buf|) {
        ConfinedWrites(xs, i, buf, offset, block);
      } else {
        MergeWritesExactly(xs, i, buf, offset, block);
      }
    }
  }

  class BlockFile {
    var extents: seq<Extent>
    const block: nat
    const maxExtentSize: nat

    /** The mask of the source covers twice the block size it is given. */
    constructor (blockSize: nat)
      requires IsPowerOfTwo(blockSize)
      ensures block == 2 * blockSize && block > 0
      ensures maxExtentSize == RoundDown(0x7FFF_FFFF, block) && Aligned(maxExtentSize, block)
      ensures extents == []
    {
      extents := [];
      block := 2 * blockSize;
      maxExtentSize := RoundDown(0x7FFF_FFFF, 2 * blockSize);
      RoundDownAligned(0x7FFF_FFFF, 2 * blockSize);
    }

    method SearchExtent(offset: nat, bias: SearchBias) returns (r: Found)
      ensures r == Search(extents, offset, bias)
    {
      var a, b := -1, |extents|;
      while b - a > 1
        invariant -1 <= a < b <= |extents|
        invariant SearchFrom(extents, offset, bias, a, b) == Search(extents, offset, bias)
        decreases b - a
      {
        var i := a + (b - a) / 2;
        var entryOfs := extents[i].offset;
        if offset < entryOfs {
          b := i;
        } else if offset > entryOfs {
          a := i;
        } else {
          return Exact(i);
        }
      }
      return Between(if bias.Low? then a else b);
    }

    /** The index of the first extent a read looks at. */
    method GetReadExtents(offset: nat) returns (r: Outcome<nat>)
      ensures r == match FirstRead(extents, offset) case Some(i) => Done(i) case None => Panicked
      ensures Sorted(extents) && offset <= Size(extents) ==> r.Done?
    {
      if Sorted(extents) && offset <= Size(extents) {
        SortedIsSpaced(extents);
        MayRead(extents, offset);
      }
      var found := SearchExtent(offset, Low);
      SearchLocates(extents, offset);
      match found {
        case Exact(i) => return Done(i);
        case Between(beg) =>
          assert beg >= -1;
          var index := Max(beg, 0);
          return if index > Size(extents) then Panicked else Done(index);
      }
    }

    /** Reads into `buf` from `offset`; the slice the source narrows is `buf[pos..avail]` here. */
    method Read(buf: array<byte>, offset: nat) returns (r: Outcome<nat>)
      modifies buf
      ensures !r.StackOverflow?
      ensures r.Done? ==> r.value <= buf.Length && buf[r.value..] == old(buf[r.value..])
      ensures r.Done? <==> ReadResult(extents, offset, buf.Length).Some?
      ensures r.Done? ==> Some(buf[..r.value]) == ReadResult(extents, offset, buf.Length)
      ensures Sorted(extents) ==> (r.Done? <==> Readable(extents, offset))
      ensures Sorted(extents) && r.Done? ==>
                && r.value == Min(buf.Length, Size(extents) - offset)
                && buf[..r.value] == Window(extents, offset, r.value)
    {
      var avail := buf.Length;
      if offset + buf.Length > Size(extents) {
        if Size(extents) < offset { return Panicked; }
        avail := Size(extents) - offset;
      }
      var index := GetReadExtents(offset);
      if !index.Done? { return Panicked; }
      var done := ReadExtents(buf, avail, index.value, offset);
      if Sorted(extents) {
        SortedIsSpaced(extents);
        ReadResultIsWindow(extents, offset, buf.Length);
      }
      return if done then Done(avail) else Panicked;
    }

    /** The loop of `read` over the extents from `first` on. */
    method ReadExtents(buf: array<byte>, avail: nat, first: nat, offset: nat) returns (done: bool)
      requires avail <= buf.Length && first <= |extents|
      modifies buf
      ensures buf[avail..] == old(buf[avail..])
      ensures done == ReadFrom(extents, first, offset, avail, []).Some?
      ensures done ==> buf[..avail] == ReadFrom(extents, first, offset, avail, []).value
    {
      ghost var whole, rest := ReadFrom(extents, first, offset, avail, []), buf[avail..];
      ghost var got: seq<byte> := [];
      var index, pos := first, 0;
      while index < |extents| && extents[index].offset <= offset + avail
        invariant first <= index <= |extents| && 0 <= pos <= avail
        invariant buf[avail..] == rest && buf[..pos] == got
        invariant whole == ReadFrom(extents, index, offset + pos, avail - pos, got)
      {
        var len := ReadExtent(buf, extents[index], offset + pos, pos, avail);
        if len.None? { return false; }
        assert buf[..pos + len.value] == got + buf[pos..pos + len.value];
        got := buf[..pos + len.value];
        index, pos := index + 1, pos + len.value;
      }
      FillZero(buf, pos, avail);
      assert buf[..avail] == got + Zeros(avail - pos);
      return true;
    }

    /** One turn of that loop: the number of bytes filled from `buf[pos]` on. */
    method ReadExtent(buf: array<byte>, extent: Extent, p: nat, pos: nat, avail: nat) returns (len: Option<nat>)
      requires pos <= avail <= buf.Length && extent.offset <= p + (avail - pos)
      modifies buf
      ensures len.Some? == Piece(extent, p, avail - pos).Some?
      ensures len.Some? ==> len.value <= avail - pos
      ensures len.Some? ==> buf[pos..pos + len.value] == Piece(extent, p, avail - pos).value
      ensures buf[..pos] == old(buf[..pos]) && buf[avail..] == old(buf[avail..])
    {
      if extent.offset <= p {
        var inside := p - extent.offset;
        if inside > |extent.data| { return None; }
        var data := extent.data[inside..];
        var dataLen := Min(|data|, avail - pos);
        ghost var before := buf[..];
        CopyInto(buf, pos, data[..dataLen]);
        Copied(before, buf[..], pos, data[..dataLen], avail);
        return Some(dataLen);
      } else {
        var n := ReadBehindGap(buf, extent, p, pos, avail);
        return Some(n);
      }
    }

    /** The gap before an extent, and what is read of it. */
    method ReadBehindGap(buf: array<byte>, extent: Extent, p: nat, pos: nat, avail: nat) returns (len: nat)
      requires pos <= avail <= buf.Length && p < extent.offset <= p + (avail - pos)
      modifies buf
      ensures len <= avail - pos && Some(buf[pos..pos + len]) == Piece(extent, p, avail - pos)
      ensures buf[..pos] == old(buf[..pos]) && buf[avail..] == old(buf[avail..])
    {
      var emptyLen := extent.offset - p;
      var at := pos + emptyLen;
      var dataLen := Min(|extent.data|, avail - at);
      ghost var before := buf[..];
      FillZero(buf, pos, at);
      ghost var middle := buf[..];
      CopyInto(buf, at, extent.data[..dataLen]);
      FilledGap(before, middle, buf[..], pos, at, extent.data[..dataLen], avail);
      len := emptyLen + dataLen;
    }

    method Truncate(size: nat)
      modifies this`extents
      ensures extents == Truncated(old(extents), size)
    {
      var found := SearchExtent(size, Low);
      SearchLocates(extents, size);
      match found {
        case Exact(index) => extents := extents[..index];
        case Between(index) =>
          if index == -1 {
            extents := [];
          } else {
            extents := extents[..index + 1];
            var x := extents[index];
            extents := extents[index := x.(data := x.data[..Min(size - x.offset, |x.data|)])];
          }
      }
    }

    /** How a call that changes the extents ended, compared with what it should do. */
    ghost predicate EndedAs(r: Outcome<()>, w: Outcome<seq<Extent>>)
      reads this
    {
      match w
      case Done(xs) => r.Done? && extents == xs
      case Panicked => r.Panicked?
      case StackOverflow => r.StackOverflow?
    }

    /** `stack` bounds how many calls may still be nested. */
    method Write(buf: seq<byte>, offset: nat, stack: nat) returns (r: Outcome<()>)
      requires block > 0
      modifies this`extents
      ensures EndedAs(r, WriteAt(old(extents), buf, offset, block, maxExtentSize, stack))
      decreases stack, |buf| + 1, 1
    {
      if RoundUp(|buf|, block) > maxExtentSize {
        r := WriteInChunks(buf, offset, stack);
        return;
      }
      var found := SearchExtent(offset, Low);
      SearchLocates(extents, offset);
      if found == Between(-1) {
        var blockOfs := RoundDown(offset, block);
        extents := extents + [Extent(blockOfs, Zeros(offset - blockOfs) + buf)];
        return Done(());
      }
      var index := match found case Exact(i) => i case Between(i) => i;
      r := WriteFrom(index, buf, offset, stack);
    }

    /** `write` from where the extent is known: a write with too little room is split in two. */
    method WriteFrom(index: nat, buf: seq<byte>, offset: nat, stack: nat) returns (r: Outcome<()>)
      requires block > 0 && RoundUp(|buf|, block) <= maxExtentSize && index < |extents|
      requires index == Start(extents, offset) && extents[index].offset <= offset
      modifies this`extents
      ensures EndedAs(r, WriteAt(old(extents), buf, offset, block, maxExtentSize, stack))
      decreases stack, |buf| + 1, 0
    {
      var inOfs := offset - extents[index].offset;
      if RoundUp(inOfs + |buf|, block) > maxExtentSize {
        if inOfs > maxExtentSize || maxExtentSize - inOfs > |buf| { return Panicked; }
        if stack == 0 { return StackOverflow; }
        var possible := maxExtentSize - inOfs;
        r := Write(buf[..possible], offset, stack - 1);
        if r.Done? { r := Write(buf[possible..], offset + possible, stack - 1); }
        return;
      }
      r := WriteExtent(index, buf, offset);
    }

    method WriteInChunks(buf: seq<byte>, offset: nat, stack: nat) returns (r: Outcome<()>)
      requires block > 0
      modifies this`extents
      ensures EndedAs(r, if maxExtentSize == 0 then Panicked
                         else WriteChunks(old(extents), buf, offset, block, maxExtentSize, stack))
      decreases stack, |buf|, 0
    {
      if maxExtentSize == 0 { return Panicked; }
      ghost var w := WriteChunks(extents, buf, offset, block, maxExtentSize, stack);
      var pos := 0;
      while pos < |buf|
        invariant pos <= |buf|
        invariant w == WriteChunks(extents, buf[pos..], offset + pos, block, maxExtentSize, stack)
      {
        if stack == 0 { return StackOverflow; }
        var n := Min(maxExtentSize, |buf| - pos);
        var chunk := buf[pos..][..n];
        assert buf[pos..][n..] == buf[pos + n..];
        r := Write(chunk, offset + pos, stack - 1);
        if !r.Done? { return; }
        pos := pos + n;
      }
      return Done(());
    }

    /** The part of `write` after the extent is found and known to have room. */
    method WriteExtent(index: nat, buf: seq<byte>, offset: nat) returns (r: Outcome<()>)
      requires block > 0 && index < |extents| && extents[index].offset <= offset
      modifies this`extents
      ensures EndedAs(r, WriteInto(old(extents), index, buf, offset, block))
    {
      var x := extents[index];
      var inOfs := offset - x.offset;
      var inEnd := inOfs + |buf|;
      if |x.data| >= inEnd {
        extents := extents[index := x.(data := Overlay(x.data, inOfs, buf))];
        return Done(());
      }
      var neededEnd := inEnd;
      if index + 1 < |extents| { neededEnd := RoundUp(neededEnd, block); }
      var data := Overlay(Grown(x.data, neededEnd), inOfs, buf);
      extents := extents[index := x.(data := data)];
      var curEnd := x.offset + |data|;
      if index + 1 == |extents| || curEnd <= x.offset { return Done(()); }
      var next := extents[index + 1];
      var overOffset := x.offset + inEnd;
      if overOffset < next.offset { return Panicked; }
      var overBy := overOffset - next.offset;
      var toMoveEnd := RoundUp(overBy, block);
      var toMoveSize := toMoveEnd - overBy;
      if toMoveSize > |data| || toMoveSize > |next.data| || toMoveEnd > |next.data| { return Panicked; }
      data := data[..|data| - toMoveSize] + next.data[..toMoveSize];
      extents := extents[index := x.(data := data)];
      extents := extents[index + 1 := Extent(next.offset + toMoveEnd, next.data[toMoveEnd..])];
      return Done(());
    }
  }
}
