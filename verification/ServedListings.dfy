/** From the listing back to the wire: what the kernel reads of a directory when it asks for one page after
    the other. */
module ServedListings {
  import opened Bytes
  import opened Protocol
  import opened Packing
  import opened Inodes
  import opened Forest
  import opened Paging
  import opened Readdir
  import opened ReaddirHandler
  import opened FsModel
  import opened ServedNames
  import opened Table
  import opened TableEffects
  import Messages
  import R = Replies
  import Streams
  import TableRuns

  // ----- one page

  /** What is replied to a request for a page: the packed entries, or an error. */
  ghost function PageBytes(st: State, d: nat, offset: nat, room: nat): Result<seq<byte>>
    requires GoodNames(st)
  {
    match PageOf(st, d, offset, room)
    case Err(e) => Err(e)
    case Ok(es) => Ok(Encode(Records(es)))
  }

  /** The call that ends the request. */
  function CallFor(page: Result<seq<byte>>): R.Call
  {
    match page
    case Err(e) => R.Fail(e)
    case Ok(data) => R.ReplyBuffer(data)
  }

  /** The READDIR arm of the loop of examples/tmpfs/main.rs: a new buffer is filled and replied, or the
      error is. */
  method ServeReaddir(fs: Fs, inode: u64, size: u32, offset: u64) returns (call: R.Call)
    requires fs.Valid()
    modifies fs
    ensures fs.Valid() && fs.guards == old(fs.guards) && fs.handed == old(fs.handed)
    ensures NoLeak(old(fs.Table())) ==> fs.Table() == old(fs.Table())
    ensures call == CallFor(PageBytes(old(fs.Table()), inode, offset, size))
    ensures R.Offers(Messages.ReqReaddir(inode, size, offset), call)
  {
    var buf := new ReplyBuf(size);
    EmptyHolds(buf);
    var r := HandleReaddir(fs, inode, offset, buf);
    if r.Err? {
      Offered(Messages.ReqReaddir(inode, size, offset), r.errno, []);
      return R.Fail(r.errno);
    }
    var data := buf.FilledData();
    assert |data| == buf.filled;
    Offered(Messages.ReqReaddir(inode, size, offset), 0, data);
    return R.ReplyBuffer(data);
  }

  lemma Offered(b: Messages.Body, errno: nat, data: seq<byte>)
    requires b.ReqReaddir? && |data| <= b.size
    ensures R.Offers(b, R.Fail(errno)) && R.Offers(b, R.ReplyBuffer(data))
  {
  }

  lemma EmptyHolds(buf: ReplyBuf)
    requires buf.Valid() && buf.records == [] && buf.filled == 0
    ensures Holds(buf, [])
  {
    assert Records([]) == [];
  }

  // ----- what the kernel reads

  function EntriesOf(rs: seq<Record>): (es: seq<Dirent>)
    ensures |es| == |rs| && forall i :: 0 <= i < |es| ==> es[i] == rs[i].entry
  {
    seq(|rs|, i requires 0 <= i < |rs| => rs[i].entry)
  }

  /** The entries the kernel finds in a reply; None for an error, and for bytes that are no entries. */
  function Found(reply: Result<seq<byte>>): Option<seq<Dirent>>
  {
    if reply.Err? then None
    else match Decode(0, reply.value) case None => None case Some(rs) => Some(EntriesOf(rs))
  }

  /** The kernel reads a directory that does not change page by page, each from the offset the last entry
      it found tells it. */
  ghost function KernelReads(st: State, d: nat, offset: nat, rooms: seq<nat>): Option<seq<Dirent>>
    requires GoodNames(st)
    decreases |rooms|
  {
    if rooms == [] then Some([])
    else match Found(PageBytes(st, d, offset, rooms[0]))
      case None => None
      case Some(es) =>
        match KernelReads(st, d, NextOffset(offset, es), rooms[1..])
        case None => None
        case Some(more) => Some(es + more)
  }

  predicate ShortNames(es: seq<Dirent>)
  {
    forall i :: 0 <= i < |es| ==> |es[i].name| < 0x1_0000_0000
  }

  lemma PageIsFound(es: seq<Dirent>)
    requires ShortNames(es)
    ensures Found(Ok(Encode(Records(es)))) == Some(es)
  {
    DecodeEncode(0, Records(es));
    assert AllShort(Records(es));
    assert EntriesOf(Records(es)) == es;
  }

  lemma ListingShort(st: State, d: nat)
    requires GoodNames(st) && Live(st, d) && Live(st, At(st, d).parent)
    requires forall n :: n in FilesOf(st, d) ==> |n| < 0x1_0000_0000
    ensures ShortNames(Listing(st, d))
  {
    ChildrenShort(st, d);
    ShortWithDots(Children(st, d), DotDotEntry(st, d).value, DotEntry(st, d));
  }

  lemma ChildrenShort(st: State, d: nat)
    requires GoodNames(st) && forall n :: n in FilesOf(st, d) ==> |n| < 0x1_0000_0000
    ensures ShortNames(Children(st, d))
  {
    var names, es := NamesInOrder(st, d), Children(st, d);
    forall k | 0 <= k < |es| ensures |es[k].name| < 0x1_0000_0000 {
      assert es[k] == Child(st, d, names[k], k);
    }
  }

  lemma ShortWithDots(children: seq<Dirent>, up: Dirent, dot: Dirent)
    requires ShortNames(children) && up.name == DOTDOT && dot.name == DOT
    ensures ShortNames(children + [up, dot])
  {
  }

  /** A page of a listing is a stretch of it. */
  lemma PageShort(st: State, d: nat, offset: nat, room: nat)
    requires GoodNames(st) && Live(st, d) && At(st, d).content.Dir? && Live(st, At(st, d).parent)
    requires ShortNames(Listing(st, d)) && PageOf(st, d, offset, room).Ok?
    ensures ShortNames(PageOf(st, d, offset, room).value)
  {
    PageOfListing(st, d, offset, room);
    if offset < |Listing(st, d)| { PrefixShort(Listing(st, d), offset, PageOf(st, d, offset, room).value); }
  }

  lemma PrefixShort(es: seq<Dirent>, offset: nat, page: seq<Dirent>)
    requires ShortNames(es) && offset <= |es| && page <= es[offset..]
    ensures ShortNames(page)
  {
    forall i | 0 <= i < |page| ensures |page[i].name| < 0x1_0000_0000 {
      assert page[i] == es[offset + i];
    }
  }

  /** The kernel finds in the bytes what was put into the pages. */
  lemma {:induction false} KernelReadsPages(st: State, d: nat, offset: nat, rooms: seq<nat>)
    requires GoodNames(st) && Live(st, d) && At(st, d).content.Dir? && Live(st, At(st, d).parent)
    requires ShortNames(Listing(st, d)) && Pages(st, d, offset, rooms).Ok?
    ensures KernelReads(st, d, offset, rooms) == Some(Pages(st, d, offset, rooms).value)
    decreases |rooms|
  {
    if rooms != [] {
      var page := PageOf(st, d, offset, rooms[0]).value;
      PageShort(st, d, offset, rooms[0]);
      PageIsFound(page);
      KernelReadsPages(st, d, NextOffset(offset, page), rooms[1..]);
    }
  }

  /** A new directory or file is shown with its number and its name, and as a directory or a file; with
      permissions alone in the mode given, as nothing else besides. */
  lemma NewEntryShown(st: State, st': State, parent: nat, name: Name, i: nat, mode: u32, content: Content, next: nat)
    requires AddsEntry(st, st', parent, name, i, if content.Dir? then AsDir(mode) else AsFile(mode), content)
    ensures var e := ShownAs(st', i, next, name);
            && e.ino == Wrap64(i) && e.name == name
            && (content.Dir? ==> e.typ / 4 % 2 == 1) && (content.File? ==> e.typ / 8 % 2 == 1)
            && (mode < 0x1000 ==> e.typ == if content.Dir? then 4 else 8)
  {
    TypeBits(mode);
  }

  lemma TypeBits(mode: u32)
    ensures AsDir(mode) / 0x1000 % 16 / 4 % 2 == 1 && AsFile(mode) / 0x1000 % 16 / 8 % 2 == 1
    ensures mode < 0x1000 ==> AsDir(mode) / 0x1000 % 16 == 4 && AsFile(mode) / 0x1000 % 16 == 8
  {
    DirModeBits(mode);
    FileModeBits(mode);
    NibbleBits(AsDir(mode));
    NibbleBits(AsFile(mode));
  }

  lemma NibbleBits(m: nat)
    ensures m / 0x1000 % 16 / 4 % 2 == m / 0x4000 % 2 && m / 0x1000 % 16 / 8 % 2 == m / 0x8000 % 2
  {
    var q := m / 0x1000;
    QuartersAndEighths(q % 16, q / 16);
    assert q == 16 * (q / 16) + q % 16;
    assert m / 0x4000 == q / 4 && m / 0x8000 == q / 8;
  }

  lemma QuartersAndEighths(r: nat, h: nat)
    requires r < 16
    ensures (16 * h + r) / 4 % 2 == r / 4 % 2 && (16 * h + r) / 8 % 2 == r / 8 % 2
  {
    DividesInto(16 * h + r, 4, 4 * h + r / 4, r % 4);
    DividesInto(16 * h + r, 8, 2 * h + r / 8, r % 8);
    DividesInto(r, 4, r / 4, r % 4);
    SameParity(2 * h, r / 4);
    SameParity(h, r / 8);
  }

  lemma DividesInto(x: nat, d: nat, q: nat, r: nat)
    requires (d == 4 || d == 8) && x == d * q + r && r < d
    ensures x / d == q
  {
  }

  lemma SameParity(a: nat, b: nat)
    ensures (2 * a + b) % 2 == b % 2
  {
  }

  // ----- the whole directory

  /** Every buffer takes any one of the entries. */
  ghost predicate RoomFor(st: State, d: nat, rooms: seq<nat>)
  {
    forall r :: 0 <= r < |rooms| ==> DirentSize(2) <= rooms[r] && RoomForNames(st, d, rooms[r])
  }

  ghost predicate RoomForNames(st: State, d: nat, room: nat)
  {
    forall n :: n in FilesOf(st, d) ==> DirentSize(|n|) <= room
  }

  lemma RoomForListing(st: State, d: nat, rooms: seq<nat>)
    requires GoodNames(st) && Live(st, d) && Live(st, At(st, d).parent) && RoomFor(st, d, rooms)
    ensures Roomy(Listing(st, d), rooms)
  {
    forall r, k | 0 <= r < |rooms| && 0 <= k < |Listing(st, d)|
      ensures DirentSize(|Listing(st, d)[k].name|) <= rooms[r]
    {
      RoomForEntry(st, d, rooms[r], k);
    }
  }

  lemma RoomForEntry(st: State, d: nat, room: nat, k: nat)
    requires GoodNames(st) && Live(st, d) && Live(st, At(st, d).parent)
    requires DirentSize(2) <= room && RoomForNames(st, d, room) && k < |Listing(st, d)|
    ensures DirentSize(|Listing(st, d)[k].name|) <= room
  {
    ListingNamesOrDots(st, d, k);
    RoomForName(st, d, room, Listing(st, d)[k].name);
  }

  lemma ListingNamesOrDots(st: State, d: nat, k: nat)
    requires GoodNames(st) && Live(st, d) && Live(st, At(st, d).parent) && k < |Listing(st, d)|
    ensures Listing(st, d)[k].name in FilesOf(st, d) || |Listing(st, d)[k].name| <= 2
  {
    ChildrenNamed(st, d);
    if k < |Children(st, d)| { assert Listing(st, d)[k] == Children(st, d)[k]; }
  }

  lemma RoomForName(st: State, d: nat, room: nat, name: Name)
    requires DirentSize(2) <= room && RoomForNames(st, d, room) && (name in FilesOf(st, d) || |name| <= 2)
    ensures DirentSize(|name|) <= room
  {
    if |name| <= 2 { SizesGrow(|name|, 2); }
  }

  lemma SizesGrow(a: nat, b: nat)
    requires a <= b
    ensures DirentSize(a) <= DirentSize(b)
  {
  }

  /** With these buffers, and one more at the end, the kernel finds in the replies every name once, in
      order, then `..`, then `.`, each with the number and the type of its entry, and then nothing. */
  ghost predicate ReadsWhole(st: State, d: nat, rooms: seq<nat>, last: nat)
    requires GoodNames(st) && Live(st, d) && Live(st, At(st, d).parent)
  {
    && KernelReads(st, d, 0, rooms).Some? && ShowsDirectory(st, d, KernelReads(st, d, 0, rooms).value)
    && Found(PageBytes(st, d, |FilesOf(st, d)| + 2, last)) == Some([])
  }

  lemma CleanDirectoryRead(st: State, d: nat, rooms: seq<nat>, last: nat)
    requires Structure(st, {}) && Clean(st) && Live(st, d) && At(st, d).content.Dir? && Attached(st, d)
    requires |FilesOf(st, d)| + 2 < 0x1_0000_0000_0000_0000 && |rooms| >= |FilesOf(st, d)| + 2
    ensures Live(st, At(st, d).parent)
    ensures RoomFor(st, d, rooms) ==> ReadsWhole(st, d, rooms, last)
  {
    CleanNames(st, d);
    AttachedEnumerated(st, d, rooms, last);
    if RoomFor(st, d, rooms) {
      RoomForListing(st, d, rooms);
      ListingShort(st, d);
      KernelReadsPages(st, d, 0, rooms);
      ListingShows(st, d);
      PageIsFound([]);
    }
  }

  /** In every table that serving a session leads to: a kernel that reads a directory which has not been
      removed, from offset 0 on and with buffers that take any one of its entries, finds all of it. */
  lemma ServedDirectoryRead(env: Streams.Env, events: seq<Streams.Event>, ops: seq<TableRuns.Op>, st: State, d: nat,
          rooms: seq<nat>, last: nat)
    requires Streams.LegalRun(env, Streams.Fresh(), events) && Runs(ops) && Serves(env, events, ops)
    requires st == TableAfter(ops) && Live(st, d) && At(st, d).content.Dir? && Attached(st, d)
    requires |FilesOf(st, d)| + 2 < 0x1_0000_0000_0000_0000 && |rooms| >= |FilesOf(st, d)| + 2
    ensures GoodNames(st) && Live(st, At(st, d).parent)
    ensures RoomFor(st, d, rooms) ==> ReadsWhole(st, d, rooms, last)
  {
    ServedIsSound(env, events, ops);
    CleanDirectoryRead(st, d, rooms, last);
  }
}
