/** Listing a directory page by page: the cursor protocol between the kernel and `handle_readdir`. */
module Paging {
  import opened Bytes
  import opened Protocol
  import opened Packing
  import opened Inodes

  // ----- one page

  /** The entries, from the front, that go into `room` bytes. A name with a NUL fails the request. */
  function Fill(es: seq<Dirent>, room: nat): (r: Result<seq<Dirent>>)
    ensures r.Ok? ==> r.value <= es
  {
    if es == [] then Ok([])
    else if !NulFree(es[0].name) then Err(EIO)
    else
      var size := DirentSize(|es[0].name|);
      if size > room then Ok([])
      else match Fill(es[1..], room - size)
        case Err(e) => Err(e)
        case Ok(more) => assert es == [es[0]] + es[1..]; Ok([es[0]] + more)
  }

  /** The bytes entries take. */
  function Used(es: seq<Dirent>): nat
  {
    if es == [] then 0 else DirentSize(|es[0].name|) + Used(es[1..])
  }

  lemma {:induction false} FillFits(es: seq<Dirent>, room: nat)
    ensures Fill(es, room).Ok? ==> Used(Fill(es, room).value) <= room
  {
    if es != [] && NulFree(es[0].name) && DirentSize(|es[0].name|) <= room {
      FillFits(es[1..], room - DirentSize(|es[0].name|));
    }
  }

  function Prefix(a: seq<Dirent>, r: Result<seq<Dirent>>): Result<seq<Dirent>>
  {
    match r case Err(e) => Err(e) case Ok(v) => Ok(a + v)
  }

  lemma PrefixSplit(a: seq<Dirent>, r: Result<seq<Dirent>>)
    requires a != []
    ensures Prefix(a, r) == Prefix([a[0]], Prefix(a[1..], r))
  {
    if r.Ok? { assert a + r.value == [a[0]] + (a[1..] + r.value); }
  }

  /** A list that fits as a whole leaves its room to what follows it. */
  lemma {:induction false} FillAppend(a: seq<Dirent>, b: seq<Dirent>, room: nat)
    requires Fill(a, room) == Ok(a)
    ensures Used(a) <= room && Fill(a + b, room) == Prefix(a, Fill(b, room - Used(a)))
  {
    if a == [] {
      assert a + b == b;
      match Fill(b, room) case Err(_) => case Ok(v) => assert a + v == v;
    } else {
      var size := DirentSize(|a[0].name|);
      assert (a + b)[1..] == a[1..] + b;
      FillHead(a, room);
      FillAppend(a[1..], b, room - size);
      PrefixSplit(a, Fill(b, room - Used(a)));
    }
  }

  lemma FillHead(a: seq<Dirent>, room: nat)
    requires a != [] && Fill(a, room) == Ok(a)
    ensures NulFree(a[0].name) && DirentSize(|a[0].name|) <= room
    ensures Fill(a[1..], room - DirentSize(|a[0].name|)) == Ok(a[1..])
  {
    assert Fill(a, room).value[1..] == a[1..];
  }

  /** A list that does not fit as a whole hides what follows it. */
  lemma {:induction false} FillStops(a: seq<Dirent>, b: seq<Dirent>, room: nat)
    requires Fill(a, room) != Ok(a)
    ensures Fill(a + b, room) == Fill(a, room)
  {
    assert a != [];
    assert (a + b)[1..] == a[1..] + b;
    var size := DirentSize(|a[0].name|);
    if NulFree(a[0].name) && size <= room {
      assert Fill(a[1..], room - size) != Ok(a[1..]) by { assert a == [a[0]] + a[1..]; }
      FillStops(a[1..], b, room - size);
    }
  }

  // ----- the listing of a directory

  function EntryOf(e: Entry, next: nat, name: Name): Dirent
  {
    Dirent(Wrap64(e.inode), Wrap64(next), ModeToDirentType(e.mode), name)
  }

  // ----- reading a whole listing

  /** Every entry tells the offset to continue from: one past its own position. */
  predicate Numbered(es: seq<Dirent>)
  {
    forall k :: 0 <= k < |es| ==> es[k].off == k + 1
  }

  /** Where the kernel continues after a page. */
  function NextOffset(offset: nat, page: seq<Dirent>): nat
  {
    if page == [] then offset else page[|page| - 1].off
  }

  function Page(es: seq<Dirent>, offset: nat, room: nat): seq<Dirent>
  {
    if offset >= |es| then []
    else match Fill(es[offset..], room) case Err(_) => [] case Ok(p) => p
  }

  /** All pages of a listing, one for each buffer size, each starting where the last one ended. */
  function ReadOn(es: seq<Dirent>, offset: nat, rooms: seq<nat>): seq<Dirent>
    decreases |rooms|
  {
    if rooms == [] then []
    else
      var page := Page(es, offset, rooms[0]);
      page + ReadOn(es, NextOffset(offset, page), rooms[1..])
  }

  /** The offset reached by then. */
  function ReadTo(es: seq<Dirent>, offset: nat, rooms: seq<nat>): nat
    decreases |rooms|
  {
    if rooms == [] then offset else ReadTo(es, NextOffset(offset, Page(es, offset, rooms[0])), rooms[1..])
  }

  predicate AllNulFree(es: seq<Dirent>)
  {
    forall k :: 0 <= k < |es| ==> NulFree(es[k].name)
  }

  lemma {:induction false} FillOfNames(es: seq<Dirent>, room: nat)
    requires AllNulFree(es)
    ensures Fill(es, room).Ok?
    ensures Fill(es, room).value == [] <==> es == [] || DirentSize(|es[0].name|) > room
  {
    if es != [] && DirentSize(|es[0].name|) <= room {
      FillOfNames(es[1..], room - DirentSize(|es[0].name|));
    }
  }

  /** A page holds consecutive entries, and is empty exactly at the end or when not even the next entry
      fits. */
  lemma PageIsNext(es: seq<Dirent>, offset: nat, room: nat)
    requires Numbered(es) && AllNulFree(es) && offset <= |es|
    ensures var page := Page(es, offset, room);
            && offset + |page| <= |es| && page == es[offset..offset + |page|]
            && NextOffset(offset, page) == offset + |page|
            && (page == [] <==> offset == |es| || DirentSize(|es[offset].name|) > room)
  {
    if offset < |es| {
      FillOfNames(es[offset..], room);
      var page := Page(es, offset, room);
      assert page <= es[offset..];
      assert page == es[offset..][..|page|] == es[offset..offset + |page|];
    }
  }

  lemma SliceConcat(es: seq<Dirent>, a: nat, b: nat, c: nat)
    requires a <= b <= c <= |es|
    ensures es[a..b] + es[b..c] == es[a..c]
  {
  }

  /** The first page and the reading that follows it. */
  lemma ReadStep(es: seq<Dirent>, offset: nat, rooms: seq<nat>) returns (next: nat)
    requires Numbered(es) && AllNulFree(es) && offset <= |es| && rooms != []
    ensures offset <= next <= |es| && next == NextOffset(offset, Page(es, offset, rooms[0]))
    ensures ReadOn(es, offset, rooms) == es[offset..next] + ReadOn(es, next, rooms[1..])
    ensures ReadTo(es, offset, rooms) == ReadTo(es, next, rooms[1..])
  {
    next := NextPage(es, offset, rooms[0]);
    assert ReadOn(es, offset, rooms) == Page(es, offset, rooms[0]) + ReadOn(es, next, rooms[1..]);
  }

  lemma NextPage(es: seq<Dirent>, offset: nat, room: nat) returns (next: nat)
    requires Numbered(es) && AllNulFree(es) && offset <= |es|
    ensures offset <= next <= |es| && next == NextOffset(offset, Page(es, offset, room))
    ensures Page(es, offset, room) == es[offset..next]
  {
    PageIsNext(es, offset, room);
    next := NextOffset(offset, Page(es, offset, room));
  }

  /** Whatever the buffer sizes, the pages are the listing from the start on, without gap or repeat. */
  lemma {:induction false} PagesAreConsecutive(es: seq<Dirent>, offset: nat, rooms: seq<nat>)
    requires Numbered(es) && AllNulFree(es) && offset <= |es|
    ensures offset <= ReadTo(es, offset, rooms) <= |es|
    ensures ReadOn(es, offset, rooms) == es[offset..ReadTo(es, offset, rooms)]
    decreases |rooms|
  {
    if rooms != [] {
      var next := ReadStep(es, offset, rooms);
      PagesAreConsecutive(es, next, rooms[1..]);
      SliceConcat(es, offset, next, ReadTo(es, next, rooms[1..]));
    }
  }

  predicate Roomy(es: seq<Dirent>, rooms: seq<nat>)
  {
    forall r, k :: 0 <= r < |rooms| && 0 <= k < |es| ==> DirentSize(|es[k].name|) <= rooms[r]
  }

  lemma PageProgress(es: seq<Dirent>, offset: nat, room: nat)
    requires Numbered(es) && AllNulFree(es) && offset <= |es|
    requires forall k :: 0 <= k < |es| ==> DirentSize(|es[k].name|) <= room
    ensures Min(|es|, offset + 1) <= NextOffset(offset, Page(es, offset, room)) <= |es|
  {
    PageIsNext(es, offset, room);
  }

  /** With buffers that take any single entry, every page makes progress until the end is reached. */
  lemma {:induction false} PagesReachEnd(es: seq<Dirent>, offset: nat, rooms: seq<nat>)
    requires Numbered(es) && AllNulFree(es) && offset <= |es| && Roomy(es, rooms)
    ensures ReadTo(es, offset, rooms) >= Min(|es|, offset + |rooms|)
    decreases |rooms|
  {
    if rooms != [] {
      PageProgress(es, offset, rooms[0]);
      RoomyRest(es, rooms);
      PagesReachEnd(es, NextOffset(offset, Page(es, offset, rooms[0])), rooms[1..]);
    }
  }

  lemma RoomyRest(es: seq<Dirent>, rooms: seq<nat>)
    requires Roomy(es, rooms) && rooms != []
    ensures Roomy(es, rooms[1..])
  {
  }

  /** Reading from offset 0 yields every entry exactly once, in order, after at most as many pages as
      there are entries; the page after that is empty. */
  lemma EnumeratesExactlyOnce(es: seq<Dirent>, rooms: seq<nat>, last: nat)
    requires Numbered(es) && AllNulFree(es) && Roomy(es, rooms) && |rooms| >= |es|
    ensures ReadOn(es, 0, rooms) == es
    ensures Page(es, ReadTo(es, 0, rooms), last) == []
  {
    PagesReachEnd(es, 0, rooms);
    PagesAreConsecutive(es, 0, rooms);
    assert es[0..|es|] == es;
  }
}
