/** `handle_readdir` of examples/tmpfs/main.rs: one page of a directory of the inode table. */
module Readdir {
  import opened Bytes
  import opened Protocol
  import opened BTree
  import opened Packing
  import opened Inodes
  import opened Forest
  import opened Paging

  /** The attributes a listing shows; the others play no part in it. */
  function Stat(e: Entry): Attr
  {
    Attr(Wrap64(e.inode), 0, 0, 0, 0, 0, 0, 0, 0, e.mode, 0, 0, 0, 0, 0, 0)
  }

  /** The entry of the k-th name, telling the kernel to continue at k + 1. */
  ghost function Child(st: State, d: nat, name: Name, k: nat): (e: Dirent)
    requires GoodNames(st) && name in FilesOf(st, d)
    ensures e.name == name && e.off == Wrap64(k + 1)
  {
    assert GoodChild(st, d, FilesOf(st, d)[name]);
    EntryOf(At(st, FilesOf(st, d)[name]), k + 1, name)
  }

  /** The entries of the given names, numbered from `k` on. */
  ghost function ChildrenFrom(st: State, d: nat, names: seq<Name>, k: nat): (es: seq<Dirent>)
    requires GoodNames(st) && forall i :: 0 <= i < |names| ==> names[i] in FilesOf(st, d)
    ensures |es| == |names|
    ensures forall i :: 0 <= i < |es| ==> es[i] == Child(st, d, names[i], k + i)
  {
    if names == [] then [] else [Child(st, d, names[0], k)] + ChildrenFrom(st, d, names[1..], k + 1)
  }

  ghost function NamesInOrder(st: State, d: nat): (names: seq<Name>)
    ensures |names| == |FilesOf(st, d)|
    ensures forall i :: 0 <= i < |names| ==> names[i] in FilesOf(st, d)
  {
    var names := SortedNames(FilesOf(st, d).Keys);
    assert forall i :: 0 <= i < |names| ==> names[i] in names;
    names
  }

  /** The named entries of directory `d`, in name order. */
  ghost function Children(st: State, d: nat): (es: seq<Dirent>)
    requires GoodNames(st)
    ensures |es| == |FilesOf(st, d)|
  {
    ChildrenFrom(st, d, NamesInOrder(st, d), 0)
  }

  /** The entry `..`, or why it cannot be had. */
  ghost function DotDotEntry(st: State, d: nat): Result<Dirent>
    requires Live(st, d)
  {
    var p := At(st, d).parent;
    if Live(st, p) then Ok(EntryOf(At(st, p), |FilesOf(st, d)| + 1, DOTDOT)) else Err(LookupError(st, p))
  }

  ghost function DotEntry(st: State, d: nat): Dirent
    requires Live(st, d)
  {
    EntryOf(At(st, d), |FilesOf(st, d)| + 2, DOT)
  }

  ghost function Listing(st: State, d: nat): seq<Dirent>
    requires GoodNames(st) && Live(st, d) && Live(st, At(st, d).parent)
  {
    Children(st, d) + [DotDotEntry(st, d).value, DotEntry(st, d)]
  }

  /** One page of named entries followed by the two dots. The first of them is asked for only when its
      turn comes, and may then fail the request. */
  function PageIn(children: seq<Dirent>, dotdot: Result<Dirent>, dot: Dirent, offset: nat,
          room: nat): Result<seq<Dirent>>
  {
    var n := |children|;
    if offset > n + 1 then Ok([])
    else if offset == n + 1 then Fill([dot], room)
    else
      match Fill(children[offset..], room)
      case Err(e) => Err(e)
      case Ok(got) =>
        if |got| < n - offset then Ok(got)
        else match dotdot
          case Err(e) => Err(e)
          case Ok(up) => FillFits(children[offset..], room); Prefix(got, Fill([up, dot], room - Used(got)))
  }

  lemma ShorterPrefix(a: seq<Dirent>, b: seq<Dirent>)
    requires a <= b
    ensures a == b <==> |a| == |b|
  {
    assert a == b[..|a|];
  }

  lemma PageOfWhole(children: seq<Dirent>, up: Dirent, dot: Dirent, offset: nat, room: nat)
    ensures PageIn(children, Ok(up), dot, offset, room) ==
              if offset >= |children| + 2 then Ok([]) else Fill((children + [up, dot])[offset..], room)
  {
    var n, whole := |children|, children + [up, dot];
    if offset <= n {
      assert whole[offset..] == children[offset..] + [up, dot];
      if Fill(children[offset..], room) == Ok(children[offset..]) {
        FillAppend(children[offset..], [up, dot], room);
      } else {
        FillStops(children[offset..], [up, dot], room);
        if Fill(children[offset..], room).Ok? {
          ShorterPrefix(Fill(children[offset..], room).value, children[offset..]);
        }
      }
    } else if offset == n + 1 {
      assert whole[offset..] == [dot];
    }
  }

  /** What a request for a page answers. */
  ghost function PageOf(st: State, d: nat, offset: nat, room: nat): Result<seq<Dirent>>
    requires GoodNames(st)
  {
    if !Live(st, d) then Err(LookupError(st, d))
    else if At(st, d).content.File? then Err(ENOTDIR)
    else PageIn(Children(st, d), DotDotEntry(st, d), DotEntry(st, d), offset, room)
  }

  /** With the parent alive a page is simply as much of the listing as fits. */
  lemma PageOfListing(st: State, d: nat, offset: nat, room: nat)
    requires GoodNames(st) && Live(st, d) && At(st, d).content.Dir? && Live(st, At(st, d).parent)
    ensures PageOf(st, d, offset, room) ==
              if offset >= |Listing(st, d)| then Ok([]) else Fill(Listing(st, d)[offset..], room)
  {
    PageOfWhole(Children(st, d), DotDotEntry(st, d).value, DotEntry(st, d), offset, room);
  }

  ghost predicate NamesNulFree(st: State, d: nat)
  {
    forall n :: n in FilesOf(st, d) ==> NulFree(n)
  }

  lemma ChildNamesNulFree(st: State, d: nat)
    requires GoodNames(st) && NamesNulFree(st, d)
    ensures AllNulFree(Children(st, d))
  {
    var names, es := NamesInOrder(st, d), Children(st, d);
    forall k | 0 <= k < |es| ensures NulFree(es[k].name) {
      assert es[k] == Child(st, d, names[k], k);
    }
  }

  lemma ChildrenNumbered(st: State, d: nat)
    requires GoodNames(st) && |FilesOf(st, d)| < 0x1_0000_0000_0000_0000
    ensures Numbered(Children(st, d))
  {
    var names, es := NamesInOrder(st, d), Children(st, d);
    forall k | 0 <= k < |es| ensures es[k].off == k + 1 {
      assert es[k] == Child(st, d, names[k], k);
    }
  }

  lemma WithDots(children: seq<Dirent>, up: Dirent, dot: Dirent)
    requires Numbered(children) && up.off == |children| + 1 && dot.off == |children| + 2
    ensures Numbered(children + [up, dot])
    ensures AllNulFree(children) && NulFree(up.name) && NulFree(dot.name) ==> AllNulFree(children + [up, dot])
  {
  }

  lemma DotOffsets(st: State, d: nat)
    requires Live(st, d) && Live(st, At(st, d).parent) && |FilesOf(st, d)| + 2 < 0x1_0000_0000_0000_0000
    ensures DotDotEntry(st, d).value.off == |FilesOf(st, d)| + 1 && NulFree(DotDotEntry(st, d).value.name)
    ensures DotEntry(st, d).off == |FilesOf(st, d)| + 2 && NulFree(DotEntry(st, d).name)
  {
  }

  lemma ListingShape(st: State, d: nat)
    requires GoodNames(st) && Live(st, d) && Live(st, At(st, d).parent)
    requires |FilesOf(st, d)| + 2 < 0x1_0000_0000_0000_0000
    ensures Numbered(Listing(st, d))
    ensures NamesNulFree(st, d) ==> AllNulFree(Listing(st, d))
    ensures |Listing(st, d)| == |FilesOf(st, d)| + 2
  {
    ChildrenNumbered(st, d);
    if NamesNulFree(st, d) { ChildNamesNulFree(st, d); }
    DotOffsets(st, d);
    WithDots(Children(st, d), DotDotEntry(st, d).value, DotEntry(st, d));
  }

  /** What an entry of a listing says: the number of entry `i`, where to go on, the type bits of its mode,
      and the name. */
  function ShownAs(st: State, i: nat, next: nat, name: Name): Dirent
    requires Live(st, i)
  {
    Dirent(Wrap64(i), Wrap64(next), At(st, i).mode / 0x1000 % 16, name)
  }

  /** The entries a kernel should see: every name with the entry it leads to, `..` with the parent, `.` with
      the directory itself. */
  ghost predicate ShowsDirectory(st: State, d: nat, es: seq<Dirent>)
    requires GoodNames(st) && Live(st, d) && Live(st, At(st, d).parent)
  {
    var names, n := NamesInOrder(st, d), |FilesOf(st, d)|;
    && |es| == n + 2
    && (forall k :: 0 <= k < n ==> ShowsName(st, d, names[k], k, es[k]))
    && es[n] == ShownAs(st, At(st, d).parent, n + 1, [46, 46])
    && es[n + 1] == ShownAs(st, d, n + 2, [46])
  }

  ghost predicate ShowsName(st: State, d: nat, name: Name, k: nat, e: Dirent)
    requires GoodNames(st) && name in FilesOf(st, d)
  {
    assert GoodChild(st, d, FilesOf(st, d)[name]);
    e == ShownAs(st, FilesOf(st, d)[name], k + 1, name)
  }

  lemma ListingShows(st: State, d: nat)
    requires Roots(st) && GoodNames(st) && Live(st, d) && Live(st, At(st, d).parent)
    ensures ShowsDirectory(st, d, Listing(st, d))
  {
    var names, children := NamesInOrder(st, d), Children(st, d);
    forall k | 0 <= k < |children| ensures ShowsName(st, d, names[k], k, children[k]) {
      assert GoodChild(st, d, FilesOf(st, d)[names[k]]);
      assert children[k] == Child(st, d, names[k], k);
    }
  }

  /** The pages the kernel gets for a directory that does not change. */
  ghost function Pages(st: State, d: nat, offset: nat, rooms: seq<nat>): Result<seq<Dirent>>
    requires GoodNames(st)
    decreases |rooms|
  {
    if rooms == [] then Ok([])
    else match PageOf(st, d, offset, rooms[0])
      case Err(e) => Err(e)
      case Ok(page) => Prefix(page, Pages(st, d, NextOffset(offset, page), rooms[1..]))
  }

  lemma {:induction false} PagesAreListing(st: State, d: nat, offset: nat, rooms: seq<nat>)
    requires GoodNames(st) && Live(st, d) && At(st, d).content.Dir? && Live(st, At(st, d).parent)
    requires |FilesOf(st, d)| + 2 < 0x1_0000_0000_0000_0000 && NamesNulFree(st, d)
    requires offset <= |Listing(st, d)|
    ensures Pages(st, d, offset, rooms) == Ok(ReadOn(Listing(st, d), offset, rooms))
    decreases |rooms|
  {
    if rooms != [] {
      var es := Listing(st, d);
      ListingShape(st, d);
      PageOfListing(st, d, offset, rooms[0]);
      if offset < |es| { FillOfNames(es[offset..], rooms[0]); }
      PageIsNext(es, offset, rooms[0]);
      PagesAreListing(st, d, NextOffset(offset, Page(es, offset, rooms[0])), rooms[1..]);
    }
  }

  /** The cursor protocol: starting at offset 0 and following the last offset returned, with buffers
      that take any one entry, the kernel sees all names in order, then `..`, then `.`, each exactly
      once, and after that an empty page. */
  lemma DirectoryEnumerated(st: State, d: nat, rooms: seq<nat>, last: nat)
    requires GoodNames(st) && Live(st, d) && At(st, d).content.Dir? && Live(st, At(st, d).parent)
    requires |FilesOf(st, d)| + 2 < 0x1_0000_0000_0000_0000 && NamesNulFree(st, d)
    requires Roomy(Listing(st, d), rooms) && |rooms| >= |FilesOf(st, d)| + 2
    ensures Pages(st, d, 0, rooms) == Ok(Listing(st, d))
    ensures PageOf(st, d, |FilesOf(st, d)| + 2, last) == Ok([])
  {
    ListingShape(st, d);
    PagesAreListing(st, d, 0, rooms);
    EnumeratesExactlyOnce(Listing(st, d), rooms, last);
    PageOfListing(st, d, |FilesOf(st, d)| + 2, last);
  }

  /** The names a listing shows before the dots are those of the directory. */
  lemma ListingNames(st: State, d: nat, n: Name)
    requires GoodNames(st)
    ensures n in FilesOf(st, d) <==> exists k :: 0 <= k < |Children(st, d)| && Children(st, d)[k].name == n
  {
    var names, es := NamesInOrder(st, d), Children(st, d);
    ChildrenNamed(st, d);
    if n in FilesOf(st, d) {
      assert n in names;
      var k :| 0 <= k < |names| && names[k] == n;
      assert es[k].name == n;
    }
  }

  lemma ChildrenNamed(st: State, d: nat)
    requires GoodNames(st)
    ensures var names, es := NamesInOrder(st, d), Children(st, d);
            forall k :: 0 <= k < |es| ==> es[k].name == names[k] && names[k] in FilesOf(st, d)
  {
    var names, es := NamesInOrder(st, d), Children(st, d);
    forall k | 0 <= k < |es| ensures es[k].name == names[k] {
      assert es[k] == Child(st, d, names[k], k);
    }
  }

  lemma RestNulFree(es: seq<Dirent>, offset: nat)
    requires AllNulFree(es) && offset <= |es|
    ensures AllNulFree(es[offset..])
  {
  }

  // ----- the parts of a page

  /** Counting a look changes nothing a listing shows. */
  lemma PageIgnoresLooks(st: State, i: nat, d: nat, offset: nat, room: nat)
    requires GoodNames(st) && Live(st, i)
    ensures GoodNames(AddLookup(st, i)) && PageOf(AddLookup(st, i), d, offset, room) == PageOf(st, d, offset, room)
  {
    CountsOnly(st, i, At(AddLookup(st, i), i));
    ChildrenIgnoreLooks(st, i, d);
    if Live(st, d) { DotsIgnoreLooks(st, i, d); }
  }

  lemma DotsIgnoreLooks(st: State, i: nat, d: nat)
    requires Live(st, i) && Live(st, d)
    ensures DotDotEntry(AddLookup(st, i), d) == DotDotEntry(st, d)
    ensures DotEntry(AddLookup(st, i), d) == DotEntry(st, d)
    ensures At(AddLookup(st, i), d).content == At(st, d).content
  {
    var st1 := AddLookup(st, i);
    assert FilesOf(st1, d) == FilesOf(st, d);
    var p := At(st, d).parent;
    assert At(st1, d).parent == p;
    assert Live(st1, p) <==> Live(st, p);
  }

  lemma ChildIgnoresLooks(st: State, i: nat, d: nat, name: Name, k: nat)
    requires GoodNames(st) && Live(st, i) && GoodNames(AddLookup(st, i)) && name in FilesOf(st, d)
    ensures name in FilesOf(AddLookup(st, i), d) && Child(AddLookup(st, i), d, name, k) == Child(st, d, name, k)
  {
    assert FilesOf(AddLookup(st, i), d) == FilesOf(st, d);
    assert GoodChild(st, d, FilesOf(st, d)[name]);
  }

  lemma {:induction false} ChildrenFromIgnoreLooks(st: State, i: nat, d: nat, names: seq<Name>, k: nat)
    requires GoodNames(st) && Live(st, i) && GoodNames(AddLookup(st, i))
    requires forall j :: 0 <= j < |names| ==> names[j] in FilesOf(st, d) && names[j] in FilesOf(AddLookup(st, i), d)
    ensures ChildrenFrom(AddLookup(st, i), d, names, k) == ChildrenFrom(st, d, names, k)
  {
    if names != [] {
      ChildIgnoresLooks(st, i, d, names[0], k);
      ChildrenFromIgnoreLooks(st, i, d, names[1..], k + 1);
    }
  }

  lemma ChildrenIgnoreLooks(st: State, i: nat, d: nat)
    requires GoodNames(st) && Live(st, i) && GoodNames(AddLookup(st, i))
    ensures Children(AddLookup(st, i), d) == Children(st, d)
  {
    assert FilesOf(AddLookup(st, i), d) == FilesOf(st, d);
    ChildrenFromIgnoreLooks(st, i, d, NamesInOrder(st, d), 0);
  }

  /** What that part answers. */
  ghost function DotsPage(st: State, d: nat, next: nat, room: nat, named: seq<Dirent>): Result<seq<Dirent>>
    requires Live(st, d) && next >= |FilesOf(st, d)|
  {
    var n := |FilesOf(st, d)|;
    if next == n then
      var up := DotDotEntry(st, d);
      if up.Err? then Err(up.errno) else Fill(named + [up.value, DotEntry(st, d)], room)
    else if next == n + 1 then Fill([DotEntry(st, d)], room)
    else Ok([])
  }

  lemma PageAmongNames(st: State, d: nat, offset: nat, room: nat)
    requires GoodNames(st) && Live(st, d) && At(st, d).content.Dir? && offset <= |FilesOf(st, d)|
    requires Fill(Children(st, d)[offset..], room) != Ok(Children(st, d)[offset..])
    ensures PageOf(st, d, offset, room) == Fill(Children(st, d)[offset..], room)
  {
    var rest := Children(st, d)[offset..];
    if Fill(rest, room).Ok? { ShorterPrefix(Fill(rest, room).value, rest); }
  }

  lemma WholeWithDots(children: seq<Dirent>, dotdot: Result<Dirent>, dot: Dirent, offset: nat, room: nat)
    requires offset <= |children| && Fill(children[offset..], room) == Ok(children[offset..])
    ensures PageIn(children, dotdot, dot, offset, room) ==
              if dotdot.Err? then Err(dotdot.errno) else Fill(children[offset..] + [dotdot.value, dot], room)
  {
    if dotdot.Ok? { FillAppend(children[offset..], [dotdot.value, dot], room); }
  }

  lemma PageWithDots(st: State, d: nat, offset: nat, room: nat)
    requires GoodNames(st) && Live(st, d) && At(st, d).content.Dir? && offset <= |FilesOf(st, d)|
    requires Fill(Children(st, d)[offset..], room) == Ok(Children(st, d)[offset..])
    ensures PageOf(st, d, offset, room) == DotsPage(st, d, |FilesOf(st, d)|, room, Children(st, d)[offset..])
  {
    WholeWithDots(Children(st, d), DotDotEntry(st, d), DotEntry(st, d), offset, room);
  }

  lemma PageBehindNames(st: State, d: nat, offset: nat, room: nat)
    requires GoodNames(st) && Live(st, d) && At(st, d).content.Dir? && offset > |FilesOf(st, d)|
    ensures PageOf(st, d, offset, room) == DotsPage(st, d, offset, room, [])
  {
  }

  // ----- which entry `..` shows

  /** The root, or named in the directory it was created in. */
  ghost predicate Attached(st: State, d: nat)
    requires Live(st, d)
  {
    d == FUSE_ROOT_ID || Linked(st, d)
  }

  /** In a sound table the attached entries are those with links, and the parent of one is the directory
      that names it, or the root for the root. */
  lemma AttachedHasParent(st: State, d: nat)
    requires Structure(st, {}) && Live(st, d)
    ensures Attached(st, d) <==> At(st, d).links > 0
    ensures Attached(st, d) ==>
              var p := At(st, d).parent;
              && Live(st, p) && At(st, p).content.Dir?
              && if d == FUSE_ROOT_ID then p == FUSE_ROOT_ID else Names(st, p, d)
  {
    if Linked(st, d) {
      var p := At(st, d).parent;
      var n :| n in FilesOf(st, p) && FilesOf(st, p)[n] == d;
      assert GoodChild(st, p, d);
    }
  }

  /** So `..` of an attached directory shows the one directory that names it. */
  lemma DotDotIsNaming(st: State, d: nat, p: nat)
    requires Structure(st, {}) && Live(st, d) && d != FUSE_ROOT_ID && Attached(st, d)
    ensures Names(st, p, d) ==>
              Live(st, p) && DotDotEntry(st, d) == Ok(EntryOf(At(st, p), |FilesOf(st, d)| + 1, DOTDOT))
    ensures Names(st, p, d) <==> p == At(st, d).parent
  {
    AttachedHasParent(st, d);
    if Names(st, p, d) {
      var n :| n in FilesOf(st, p) && FilesOf(st, p)[n] == d;
      assert GoodChild(st, p, FilesOf(st, p)[n]);
    }
  }

  /** The cursor protocol in a sound table, for any directory that has not been removed. */
  lemma AttachedEnumerated(st: State, d: nat, rooms: seq<nat>, last: nat)
    requires Structure(st, {}) && Live(st, d) && At(st, d).content.Dir? && Attached(st, d)
    requires |FilesOf(st, d)| + 2 < 0x1_0000_0000_0000_0000 && NamesNulFree(st, d)
    requires |rooms| >= |FilesOf(st, d)| + 2
    ensures Live(st, At(st, d).parent)
    ensures Roomy(Listing(st, d), rooms) ==> Pages(st, d, 0, rooms) == Ok(Listing(st, d))
    ensures Roomy(Listing(st, d), rooms) ==> PageOf(st, d, |FilesOf(st, d)| + 2, last) == Ok([])
  {
    AttachedHasParent(st, d);
    if Roomy(Listing(st, d), rooms) { DirectoryEnumerated(st, d, rooms, last); }
  }

  /** A removed directory keeps the number of its parent. While the slot of that number is empty exactly
      the pages that are due to show `..` fail. */
  lemma OrphanFails(st: State, d: nat, offset: nat, room: nat)
    requires GoodNames(st) && Live(st, d) && At(st, d).content.Dir? && !Live(st, At(st, d).parent)
    requires NamesNulFree(st, d) && offset <= |FilesOf(st, d)|
    ensures PageOf(st, d, offset, room).Err? <==> Fill(Children(st, d)[offset..], room) == Ok(Children(st, d)[offset..])
  {
    if Fill(Children(st, d)[offset..], room) == Ok(Children(st, d)[offset..]) {
      PageWithDots(st, d, offset, room);
    } else {
      PageAmongNames(st, d, offset, room);
      ChildNamesNulFree(st, d);
      RestNulFree(Children(st, d), offset);
      FillOfNames(Children(st, d)[offset..], room);
    }
  }

  /** Once the number is in use again no page fails: `..` shows whatever took the slot. */
  lemma OrphanShowsOccupant(st: State, d: nat, offset: nat, room: nat)
    requires GoodNames(st) && Live(st, d) && At(st, d).content.Dir? && Live(st, At(st, d).parent)
    requires NamesNulFree(st, d)
    ensures PageOf(st, d, offset, room).Ok?
    ensures DotDotEntry(st, d) == Ok(EntryOf(At(st, At(st, d).parent), |FilesOf(st, d)| + 1, DOTDOT))
  {
    PageOfListing(st, d, offset, room);
    var es := Listing(st, d);
    ListingNulFree(st, d);
    if offset < |es| { FillOfNames(es[offset..], room); }
  }

  lemma ListingNulFree(st: State, d: nat)
    requires GoodNames(st) && Live(st, d) && Live(st, At(st, d).parent) && NamesNulFree(st, d)
    ensures AllNulFree(Listing(st, d))
  {
    ChildNamesNulFree(st, d);
    NulFreeWithDots(Children(st, d), DotDotEntry(st, d).value, DotEntry(st, d));
  }

  lemma NulFreeWithDots(children: seq<Dirent>, up: Dirent, dot: Dirent)
    requires AllNulFree(children) && up.name == DOTDOT && dot.name == DOT
    ensures AllNulFree(children + [up, dot])
  {
    assert NulFree(up.name) && NulFree(dot.name);
  }

  /** The page is due to show `..`: all names from its offset on fit. */
  ghost predicate DueDotDot(st: State, d: nat, offset: nat, room: nat)
    requires GoodNames(st)
  {
    offset <= |FilesOf(st, d)| && Fill(Children(st, d)[offset..], room) == Ok(Children(st, d)[offset..])
  }

  /** Exactly which pages of a directory fail. */
  lemma PageFailsExactly(st: State, d: nat, offset: nat, room: nat)
    requires GoodNames(st) && Live(st, d) && At(st, d).content.Dir? && NamesNulFree(st, d)
    ensures PageOf(st, d, offset, room).Err? <==> !Live(st, At(st, d).parent) && DueDotDot(st, d, offset, room)
  {
    if Live(st, At(st, d).parent) {
      OrphanShowsOccupant(st, d, offset, room);
    } else if offset <= |FilesOf(st, d)| {
      OrphanFails(st, d, offset, room);
    } else {
      PageBehindNames(st, d, offset, room);
      assert NulFree(DotEntry(st, d).name);
      FillOfNames([DotEntry(st, d)], room);
    }
  }

  lemma FailsForParent(st: State, d: nat, offset: nat, room: nat)
    requires GoodNames(st) && Live(st, d) && At(st, d).content.Dir? && NamesNulFree(st, d)
    requires PageOf(st, d, offset, room).Err?
    ensures PageOf(st, d, offset, room) == Err(if At(st, d).parent >= |st.entries| then EIO else ENOENT)
  {
    PageFailsExactly(st, d, offset, room);
    PageWithDots(st, d, offset, room);
    assert DotDotEntry(st, d) == Err(LookupError(st, At(st, d).parent));
  }

  /** How a page fails: nothing has the number, or a file; or nothing has the parent's. */
  lemma PageErrors(st: State, d: nat, offset: nat, room: nat)
    requires GoodNames(st)
    ensures d >= |st.entries| ==> PageOf(st, d, offset, room) == Err(EIO)
    ensures d < |st.entries| && st.entries[d].None? ==> PageOf(st, d, offset, room) == Err(ENOENT)
    ensures Live(st, d) && At(st, d).content.File? ==> PageOf(st, d, offset, room) == Err(ENOTDIR)
    ensures Live(st, d) && At(st, d).content.Dir? && NamesNulFree(st, d) && PageOf(st, d, offset, room).Err? ==>
              PageOf(st, d, offset, room) == Err(if At(st, d).parent >= |st.entries| then EIO else ENOENT)
  {
    if Live(st, d) && At(st, d).content.Dir? && NamesNulFree(st, d) && PageOf(st, d, offset, room).Err? {
      FailsForParent(st, d, offset, room);
    }
  }
}
