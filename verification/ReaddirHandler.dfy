/** The code of `handle_readdir` (examples/tmpfs/main.rs), filling a reply buffer from the inode table. */
module ReaddirHandler {
  import opened Bytes
  import opened Protocol
  import opened BTree
  import opened Packing
  import opened Inodes
  import opened Forest
  import opened Table
  import opened TableRuns
  import opened TableEffects
  import opened Paging
  import opened Readdir
  import opened FsModel

  // ----- the handler

  /** The packed form of plain entries. */
  function Records(es: seq<Dirent>): (rs: seq<Record>)
    ensures |rs| == |es| && forall i :: 0 <= i < |rs| ==> rs[i] == Record([], es[i])
  {
    seq(|es|, i requires 0 <= i < |es| => Record([], es[i]))
  }

  lemma {:induction false} PackedSize(es: seq<Dirent>)
    ensures |Encode(Records(es))| == Used(es)
  {
    if es != [] {
      assert Records(es)[1..] == Records(es[1..]);
      PackedSize(es[1..]);
    }
  }

  /** `Readdir::add_entry`: a name with a NUL is refused. */
  method AddEntry(buf: ReplyBuf, e: Entry, name: Name, next: nat) returns (r: Result<ReplyBufState>)
    requires buf.Valid()
    modifies buf, buf.buffer
    ensures buf.Valid()
    ensures r.Err? <==> !NulFree(name)
    ensures r.Err? ==> r == Err(EIO)
    ensures r == Ok(Added) <==> NulFree(name) && old(buf.filled) + DirentSize(|name|) <= buf.buffer.Length
    ensures r != Ok(Added) ==> buf.records == old(buf.records) && buf.filled == old(buf.filled)
    ensures r == Ok(Added) ==> buf.records == old(buf.records) + [Record([], EntryOf(e, next, name))]
    ensures r == Ok(Added) ==> buf.filled == old(buf.filled) + DirentSize(|name|)
  {
    if exists i :: 0 <= i < |name| && name[i] == 0 { return Err(EIO); }
    var state := buf.AddReaddir(name, Stat(e), Wrap64(next));
    return Ok(state);
  }

  lemma RecordsAppend(es: seq<Dirent>, e: Dirent)
    ensures Records(es + [e]) == Records(es) + [Record([], e)]
  {
  }

  lemma {:induction false} UsedAppend(es: seq<Dirent>, e: Dirent)
    ensures Used(es + [e]) == Used(es) + DirentSize(|e.name|)
  {
    if es == [] {
      assert [e][1..] == [];
    } else {
      assert (es + [e])[1..] == es[1..] + [e];
      UsedAppend(es[1..], e);
    }
  }

  /** The buffer holds exactly these entries. */
  ghost predicate Holds(buf: ReplyBuf, es: seq<Dirent>)
    reads buf, buf.buffer
  {
    buf.Valid() && buf.records == Records(es) && buf.filled == Used(es) <= buf.buffer.Length
  }

  /** What is still to come when `got` has been added. */
  ghost predicate Remains(whole: Result<seq<Dirent>>, got: seq<Dirent>, rest: seq<Dirent>, room: nat)
    requires Used(got) <= room
  {
    whole == Prefix(got, Fill(rest, room - Used(got)))
  }

  lemma PrefixAppend(got: seq<Dirent>, d: Dirent, more: Result<seq<Dirent>>)
    ensures Prefix(got, Prefix([d], more)) == Prefix(got + [d], more)
  {
    if more.Ok? { assert got + ([d] + more.value) == got + [d] + more.value; }
  }

  lemma FillStep(rest: seq<Dirent>, room: nat)
    requires rest != [] && NulFree(rest[0].name) && DirentSize(|rest[0].name|) <= room
    ensures Fill(rest, room) == Prefix([rest[0]], Fill(rest[1..], room - DirentSize(|rest[0].name|)))
  {
  }

  /** `got` has been added, `rest` is to come, and together they are the page's candidates `all`. */
  ghost predicate Progress(buf: ReplyBuf, all: seq<Dirent>, got: seq<Dirent>, rest: seq<Dirent>)
    reads buf, buf.buffer
  {
    Holds(buf, got) && all == got + rest && Remains(Fill(all, buf.buffer.Length), got, rest, buf.buffer.Length)
  }

  /** What adding entries reports about a page: Ok(true) all of them, Ok(false) as many as fit. */
  ghost predicate Reports(r: Result<bool>, buf: ReplyBuf, all: seq<Dirent>)
    reads buf, buf.buffer
  {
    var whole := Fill(all, buf.buffer.Length);
    match r
    case Err(e) => whole == Err(e)
    case Ok(true) => Holds(buf, all) && whole == Ok(all)
    case Ok(false) => whole.Ok? && Holds(buf, whole.value) && |whole.value| < |all|
  }

  lemma ProgressStarts(buf: ReplyBuf, all: seq<Dirent>, none: seq<Dirent>)
    requires Holds(buf, []) && none == []
    ensures Progress(buf, all, none, all)
  {
    if Fill(all, buf.buffer.Length).Ok? {
      assert [] + Fill(all, buf.buffer.Length).value == Fill(all, buf.buffer.Length).value;
    }
  }

  lemma ProgressEnds(buf: ReplyBuf, all: seq<Dirent>, got: seq<Dirent>)
    requires Progress(buf, all, got, [])
    ensures Reports(Ok(true), buf, all)
  {
    assert got + [] == got;
  }

  lemma StopsHere(all: seq<Dirent>, got: seq<Dirent>, rest: seq<Dirent>, room: nat)
    requires Used(got) <= room && rest != [] && all == got + rest && Remains(Fill(all, room), got, rest, room)
    ensures !NulFree(rest[0].name) ==> Fill(all, room) == Err(EIO)
    ensures NulFree(rest[0].name) && Used(got) + DirentSize(|rest[0].name|) > room ==>
              Fill(all, room) == Ok(got) && |got| < |all|
  {
    assert got + [] == got;
  }

  lemma RemainsMoves(whole: Result<seq<Dirent>>, got: seq<Dirent>, rest: seq<Dirent>, left: nat, size: nat)
    requires rest != [] && NulFree(rest[0].name) && size == DirentSize(|rest[0].name|) <= left
    requires whole == Prefix(got, Fill(rest, left))
    ensures whole == Prefix(got + [rest[0]], Fill(rest[1..], left - size))
  {
    FillStep(rest, left);
    PrefixAppend(got, rest[0], Fill(rest[1..], left - size));
  }

  /** The buffer has just taken the next entry. */
  lemma ProgressMoves(buf: ReplyBuf, all: seq<Dirent>, got: seq<Dirent>, rest: seq<Dirent>)
    requires rest != [] && NulFree(rest[0].name) && all == got + rest && buf.Valid()
    requires Used(got) + DirentSize(|rest[0].name|) == buf.filled <= buf.buffer.Length
    requires buf.records == Records(got) + [Record([], rest[0])]
    requires Remains(Fill(all, buf.buffer.Length), got, rest, buf.buffer.Length)
    ensures Progress(buf, all, got + [rest[0]], rest[1..])
  {
    RecordsAppend(got, rest[0]);
    UsedAppend(got, rest[0]);
    MoveOne(got, rest);
    RemainsMoves(Fill(all, buf.buffer.Length), got, rest, buf.buffer.Length - Used(got), DirentSize(|rest[0].name|));
  }

  lemma MoveOne(got: seq<Dirent>, rest: seq<Dirent>)
    requires rest != []
    ensures (got + [rest[0]]) + rest[1..] == got + rest
  {
  }

  /** Adding the next entry due. */
  method AddNext(buf: ReplyBuf, e: Entry, name: Name, next: nat,
                 ghost all: seq<Dirent>, ghost got: seq<Dirent>, ghost rest: seq<Dirent>)
    returns (r: Result<bool>)
    requires rest != [] && rest[0] == EntryOf(e, next, name) && Progress(buf, all, got, rest)
    modifies buf, buf.buffer
    ensures buf.Valid()
    ensures r == Ok(true) ==> Progress(buf, all, got + [rest[0]], rest[1..])
    ensures r != Ok(true) ==> Reports(r, buf, all)
  {
    StopsHere(all, got, rest, buf.buffer.Length);
    var added := AddEntry(buf, e, name, next);
    match added {
      case Err(errno) => return Err(errno);
      case Ok(Full) => return Ok(false);
      case Ok(Added) =>
        ProgressMoves(buf, all, got, rest);
        return Ok(true);
    }
  }

  /** A page that starts at `from` has been filled with the names before the k-th. */
  ghost predicate AtName(st: State, d: nat, from: nat, k: nat, buf: ReplyBuf)
    reads buf, buf.buffer
  {
    && GoodNames(st) && from <= k <= |FilesOf(st, d)|
    && Progress(buf, Children(st, d)[from..], Children(st, d)[from..k], Children(st, d)[k..])
  }

  ghost predicate PageReported(st: State, d: nat, from: nat, r: Result<bool>, buf: ReplyBuf)
    requires GoodNames(st) && from <= |FilesOf(st, d)|
    reads buf, buf.buffer
  {
    buf.Valid() && Reports(r, buf, Children(st, d)[from..])
  }

  /** Looks a child up, adds it, and drops the guard: the table is as before. */
  method AddGuarded(fs: Fs, buf: ReplyBuf, d: nat, k: nat, name: Name,
                    ghost all: seq<Dirent>, ghost got: seq<Dirent>, ghost rest: seq<Dirent>)
    returns (r: Result<bool>)
    requires Structure(fs.Table(), {}) && name in FilesOf(fs.Table(), d) && fs as object != buf
    requires rest != [] && rest[0] == Child(fs.Table(), d, name, k) && Progress(buf, all, got, rest)
    modifies fs`entries, fs`freeInodes, fs`guards, buf, buf.buffer
    ensures fs.Table() == old(fs.Table()) && fs.guards == old(fs.guards) && buf.Valid()
    ensures r == Ok(true) ==> Progress(buf, all, got + [rest[0]], rest[1..])
    ensures r != Ok(true) ==> Reports(r, buf, all)
  {
    var c := fs.entries[d].value.content.files[name];
    assert GoodChild(fs.Table(), d, c);
    assert Linked(fs.Table(), c);
    LookAndDrop(fs.Table(), c);
    var child := fs.OpenGuard(c);
    assert child.Ok?;
    r := AddNext(buf, fs.entries[c].value, name, k + 1, all, got, rest);
    fs.CloseGuard(c);
  }

  lemma NextSlices(es: seq<Dirent>, from: nat, k: nat)
    requires from <= k < |es|
    ensures es[k..][0] == es[k] && es[k..][1..] == es[k + 1..]
    ensures es[from..k] + [es[k]] == es[from..k + 1]
  {
  }

  /** One turn of the loop. */
  method AddChild(fs: Fs, buf: ReplyBuf, d: nat, from: nat, k: nat, name: Name) returns (r: Result<bool>)
    requires Structure(fs.Table(), {}) && AtName(fs.Table(), d, from, k, buf) && fs as object != buf
    requires k < |FilesOf(fs.Table(), d)| && name == NamesInOrder(fs.Table(), d)[k]
    modifies fs`entries, fs`freeInodes, fs`guards, buf, buf.buffer
    ensures fs.Table() == old(fs.Table()) && fs.guards == old(fs.guards)
    ensures r == Ok(true) ==> AtName(fs.Table(), d, from, k + 1, buf)
    ensures r != Ok(true) ==> PageReported(fs.Table(), d, from, r, buf)
  {
    ghost var es := Children(fs.Table(), d);
    NextSlices(es, from, k);
    r := AddGuarded(fs, buf, d, k, name, es[from..], es[from..k], es[k..]);
  }

  lemma BeforeFirst(st: State, d: nat, from: nat, buf: ReplyBuf)
    requires Structure(st, {}) && Holds(buf, []) && from <= |FilesOf(st, d)|
    ensures AtName(st, d, from, from, buf)
  {
    ProgressStarts(buf, Children(st, d)[from..], Children(st, d)[from..from]);
  }

  lemma AfterLast(st: State, d: nat, from: nat, buf: ReplyBuf)
    requires AtName(st, d, from, |FilesOf(st, d)|, buf)
    ensures PageReported(st, d, from, Ok(true), buf)
  {
    var es := Children(st, d);
    assert es[|es|..] == [];
    ProgressEnds(buf, es[from..], es[from..|es|]);
  }

  /** The loop over the named entries. */
  method AddChildren(fs: Fs, d: nat, offset: nat, buf: ReplyBuf) returns (r: Result<bool>)
    requires Structure(fs.Table(), {}) && Live(fs.Table(), d) && At(fs.Table(), d).content.Dir?
    requires Holds(buf, []) && offset <= |FilesOf(fs.Table(), d)| && fs as object != buf
    modifies fs`entries, fs`freeInodes, fs`guards, buf, buf.buffer
    ensures fs.Table() == old(fs.Table()) && fs.guards == old(fs.guards)
    ensures PageReported(old(fs.Table()), d, offset, r, buf)
  {
    ghost var st := fs.Table();
    var names := KeysInOrder(fs.entries[d].value.content.files.Keys);
    assert names == NamesInOrder(st, d);
    BeforeFirst(st, d, offset, buf);
    for k := offset to |names|
      invariant fs.Table() == st && fs.guards == old(fs.guards) && AtName(st, d, offset, k, buf)
    {
      r := AddChild(fs, buf, d, offset, k, names[k]);
      if r != Ok(true) { return; }
    }
    AfterLast(st, d, offset, buf);
    return Ok(true);
  }

  /** The page as reported to the kernel: an error, or the entries in the buffer. */
  ghost predicate Answered(r: Result<()>, buf: ReplyBuf, page: Result<seq<Dirent>>)
    reads buf, buf.buffer
  {
    match page
    case Err(e) => r == Err(e)
    case Ok(es) => r == Ok(()) && Holds(buf, es)
  }

  lemma ReportAnswers(r: Result<bool>, buf: ReplyBuf, all: seq<Dirent>)
    requires Reports(r, buf, all)
    ensures Answered(if r.Err? then Err(r.errno) else Ok(()), buf, Fill(all, buf.buffer.Length))
  {
  }

  /** Adds `..` for the entry given and then `.`, as far as they fit. */
  method AddBothDots(buf: ReplyBuf, up: Entry, self: Entry, n: nat, ghost named: seq<Dirent>) returns (r: Result<bool>)
    requires Holds(buf, named) && Fill(named, buf.buffer.Length) == Ok(named)
    modifies buf, buf.buffer
    ensures buf.Valid()
    ensures Reports(r, buf, named + [EntryOf(up, n + 1, DOTDOT), EntryOf(self, n + 2, DOT)])
  {
    ghost var dots := [EntryOf(up, n + 1, DOTDOT), EntryOf(self, n + 2, DOT)];
    ghost var all := named + dots;
    FillAppend(named, dots, buf.buffer.Length);
    r := AddNext(buf, up, DOTDOT, n + 1, all, named, dots);
    if r == Ok(true) {
      assert dots[1..] == [EntryOf(self, n + 2, DOT)];
      r := AddLast(buf, self, n, all, named + [dots[0]], dots[1..]);
    }
  }

  /** Adds `.`, the last entry of all. */
  method AddLast(buf: ReplyBuf, self: Entry, n: nat, ghost all: seq<Dirent>, ghost got: seq<Dirent>,
          ghost rest: seq<Dirent>)
    returns (r: Result<bool>)
    requires rest == [EntryOf(self, n + 2, DOT)] && Progress(buf, all, got, rest)
    modifies buf, buf.buffer
    ensures buf.Valid() && Reports(r, buf, all)
  {
    r := AddNext(buf, self, DOT, n + 2, all, got, rest);
    if r == Ok(true) {
      assert rest[1..] == [];
      ProgressEnds(buf, all, got + [rest[0]]);
    }
  }

  // ----- what the handler does to the table

  /** Looking at `i` and dropping the guard. */
  ghost function LookedAt(st: State, i: nat): State
  {
    if Live(st, i) then DropGuard(AddLookup(st, i), i) else st
  }

  lemma LookedAtKeeps(st: State, held: multiset<nat>, i: nat)
    requires Inv(st, held)
    ensures Inv(LookedAt(st, i), held)
    ensures NoLeak(st) ==> LookedAt(st, i) == st
  {
    if Live(st, i) {
      AddLookupKeeps(st, held, i);
      DropGuardKeeps(AddLookup(st, i), held + multiset{i}, i);
      assert held + multiset{i} - multiset{i} == held;
      if NoLeak(st) { LookAndDrop(st, i); }
    }
  }

  /** With a guard on `d` open, at most the parent is looked at besides the children. */
  ghost predicate OnlyLooked(st: State, st': State, p: nat)
  {
    st' == st || st' == LookedAt(st, p)
  }

  lemma LooksLeakNothing(st: State, d: nat)
    requires NoLeak(st) && Live(st, d)
    ensures NoLeak(AddLookup(st, d))
  {
    forall k | Live(AddLookup(st, d), k)
      ensures At(AddLookup(st, d), k).lookups > 0 || At(AddLookup(st, d), k).links > 0
    {
      assert Live(st, k);
    }
  }

  /** A guard on `d` was opened, at most its parent looked at, and the guard dropped. */
  ghost predicate Visited(st: State, st': State, d: nat)
  {
    Live(st, d) && exists left :: OnlyLooked(AddLookup(st, d), left, At(st, d).parent) && st' == DropGuard(left, d)
  }

  lemma LookKeepsStructure(st: State, i: nat)
    requires Structure(st, {}) && Live(st, i)
    ensures Structure(AddLookup(st, i), {}) && Live(AddLookup(st, i), i)
              && At(AddLookup(st, i), i).parent == At(st, i).parent
  {
    LookupsOnly(st, i, At(st, i).lookups + 1, {});
  }

  lemma VisitEnds(st: State, left: State, st': State, d: nat)
    requires Live(st, d) && OnlyLooked(AddLookup(st, d), left, At(st, d).parent) && st' == DropGuard(left, d)
    ensures Visited(st, st', d)
  {
  }

  /** A visit keeps the table sound, and unchanged if nothing had leaked. */
  lemma VisitKeeps(st: State, held: multiset<nat>, d: nat, st': State)
    requires Inv(st, held) && Visited(st, st', d)
    ensures Inv(st', held)
    ensures NoLeak(st) ==> st' == st
  {
    var left :| OnlyLooked(AddLookup(st, d), left, At(st, d).parent) && st' == DropGuard(left, d);
    AddLookupKeeps(st, held, d);
    LookedAtKeeps(AddLookup(st, d), held + multiset{d}, At(st, d).parent);
    DropGuardKeeps(left, held + multiset{d}, d);
    assert held + multiset{d} - multiset{d} == held;
    if NoLeak(st) {
      LooksLeakNothing(st, d);
      LookAndDrop(st, d);
    }
  }

  // ----- the dots and the whole page

  /** Looks the parent up for `..`, adds both dots, and drops the guard on the parent. */
  method AddUp(fs: Fs, d: nat, buf: ReplyBuf, ghost named: seq<Dirent>) returns (r: Result<()>)
    requires Live(fs.Table(), d) && At(fs.Table(), d).content.Dir? && fs as object != buf
    requires Holds(buf, named) && Fill(named, buf.buffer.Length) == Ok(named)
    modifies fs`entries, fs`freeInodes, fs`guards, buf, buf.buffer
    ensures fs.Table() == LookedAt(old(fs.Table()), At(old(fs.Table()), d).parent) && fs.guards == old(fs.guards)
    ensures Answered(r, buf, DotsPage(old(fs.Table()), d, |FilesOf(old(fs.Table()), d)|, buf.buffer.Length, named))
  {
    var self := fs.entries[d].value;
    ghost var st, n := fs.Table(), |FilesOf(fs.Table(), d)|;
    var up := fs.OpenGuard(self.parent);
    if up.Err? { return Err(up.errno); }
    var parent := fs.entries[self.parent].value;
    assert EntryOf(parent, n + 1, DOTDOT) == DotDotEntry(st, d).value && EntryOf(self, n + 2, DOT) == DotEntry(st, d);
    var added := AddBothDots(buf, parent, self, |self.content.files|, named);
    ReportAnswers(added, buf, named + [DotDotEntry(st, d).value, DotEntry(st, d)]);
    fs.CloseGuard(self.parent);
    return if added.Err? then Err(added.errno) else Ok(());
  }

  /** The part of the handler behind the named entries; `next` is where the loop left the cursor. */
  method AddDots(fs: Fs, d: nat, next: nat, buf: ReplyBuf, ghost named: seq<Dirent>) returns (r: Result<()>)
    requires Live(fs.Table(), d) && At(fs.Table(), d).content.Dir? && fs as object != buf
    requires Holds(buf, named) && Fill(named, buf.buffer.Length) == Ok(named)
    requires next >= |FilesOf(fs.Table(), d)| && (next > |FilesOf(fs.Table(), d)| ==> named == [])
    modifies fs`entries, fs`freeInodes, fs`guards, buf, buf.buffer
    ensures OnlyLooked(old(fs.Table()), fs.Table(), At(old(fs.Table()), d).parent) && fs.guards == old(fs.guards)
    ensures Answered(r, buf, DotsPage(old(fs.Table()), d, next, buf.buffer.Length, named))
  {
    var self := fs.entries[d].value;
    var n := |self.content.files|;
    if next == n {
      r := AddUp(fs, d, buf, named);
    } else if next == n + 1 {
      ghost var dot := [EntryOf(self, n + 2, DOT)];
      ProgressStarts(buf, dot, named);
      var added := AddLast(buf, self, n, dot, named, dot);
      ReportAnswers(added, buf, dot);
      r := if added.Err? then Err(added.errno) else Ok(());
    } else {
      r := Ok(());
    }
  }

  /** A page that starts among the names, filled while the guard on the directory is held. */
  method FillNamed(fs: Fs, d: nat, offset: nat, buf: ReplyBuf) returns (r: Result<()>)
    requires Structure(fs.Table(), {}) && Live(fs.Table(), d) && At(fs.Table(), d).content.Dir?
    requires Holds(buf, []) && fs as object != buf && offset <= |FilesOf(fs.Table(), d)|
    modifies fs`entries, fs`freeInodes, fs`guards, buf, buf.buffer
    ensures OnlyLooked(old(fs.Table()), fs.Table(), At(old(fs.Table()), d).parent) && fs.guards == old(fs.guards)
    ensures Answered(r, buf, PageOf(old(fs.Table()), d, offset, buf.buffer.Length))
  {
    ghost var st, room := fs.Table(), buf.buffer.Length;
    ghost var named := Children(st, d)[offset..];
    var added := AddChildren(fs, d, offset, buf);
    if added == Ok(true) {
      PageWithDots(st, d, offset, room);
      r := AddDots(fs, d, |fs.entries[d].value.content.files|, buf, named);
    } else {
      ReportAnswers(added, buf, named);
      PageAmongNames(st, d, offset, room);
      r := if added.Err? then Err(added.errno) else Ok(());
    }
  }

  /** The handler's work while it holds its guard on the directory. */
  method FillPage(fs: Fs, d: nat, offset: nat, buf: ReplyBuf) returns (r: Result<()>)
    requires Structure(fs.Table(), {}) && Live(fs.Table(), d)
    requires Holds(buf, []) && fs as object != buf
    modifies fs`entries, fs`freeInodes, fs`guards, buf, buf.buffer
    ensures OnlyLooked(old(fs.Table()), fs.Table(), At(old(fs.Table()), d).parent) && fs.guards == old(fs.guards)
    ensures Answered(r, buf, PageOf(old(fs.Table()), d, offset, buf.buffer.Length))
  {
    if fs.entries[d].value.content.File? { return Err(ENOTDIR); }
    if offset > |fs.entries[d].value.content.files| {
      PageBehindNames(fs.Table(), d, offset, buf.buffer.Length);
      r := AddDots(fs, d, offset, buf, []);
    } else {
      r := FillNamed(fs, d, offset, buf);
    }
  }

  /** The handler once the directory is known to be there. */
  method ReadPage(fs: Fs, inode: nat, offset: nat, buf: ReplyBuf, ghost st: State, ghost page: Result<seq<Dirent>>)
    returns (r: Result<()>)
    requires Structure(st, {}) && Live(st, inode) && fs.Table() == AddLookup(st, inode)
    requires Holds(buf, []) && fs as object != buf && page == PageOf(st, inode, offset, buf.buffer.Length)
    modifies fs`entries, fs`freeInodes, fs`guards, buf, buf.buffer
    ensures Visited(st, fs.Table(), inode) && fs.guards == old(fs.guards) - multiset{inode}
    ensures Answered(r, buf, page)
  {
    LookKeepsStructure(st, inode);
    PageIgnoresLooks(st, inode, inode, offset, buf.buffer.Length);
    r := FillPage(fs, inode, offset, buf);
    ghost var left := fs.Table();
    fs.CloseGuard(inode);
    VisitEnds(st, left, fs.Table(), inode);
  }

  lemma VisitKeepsSound(w: World, w': World, d: nat)
    requires Sound(w) && Visited(w.st, w'.st, d) && w'.guards == w.guards && w'.handed == w.handed
    ensures Sound(w')
    ensures NoLeak(w.st) ==> w'.st == w.st
  {
    VisitKeeps(w.st, w.guards + w.handed, d, w'.st);
  }

  /** The handler: one request is answered with exactly one page, and a sound table is left as it was. */
  method HandleReaddir(fs: Fs, inode: nat, offset: nat, buf: ReplyBuf) returns (r: Result<()>)
    requires fs.Valid() && Holds(buf, []) && fs as object != buf
    modifies fs`entries, fs`freeInodes, fs`guards, buf, buf.buffer
    ensures fs.Valid() && fs.guards == old(fs.guards)
    ensures NoLeak(old(fs.Table())) ==> fs.Table() == old(fs.Table())
    ensures Answered(r, buf, PageOf(old(fs.Table()), inode, offset, buf.buffer.Length))
  {
    ghost var w, st := fs.World(), fs.Table();
    ghost var page := PageOf(st, inode, offset, buf.buffer.Length);
    var dir := fs.OpenGuard(inode);
    if dir.Err? { return Err(dir.errno); }
    r := ReadPage(fs, inode, offset, buf, st, page);
    VisitKeepsSound(w, fs.World(), inode);
  }
}
