/** From the wire to the listing: names the session yields are free of NULs and fit their length field, so
    do the directories made of them, and no listing of such a directory is ever refused because of a
    name. */
module ServedNames {
  import opened Bytes
  import opened Protocol
  import opened Inodes
  import opened Forest
  import opened TableRuns
  import Readdir
  import Messages
  import DecodeFacts
  import Streams
  import SessionRuns

  // ----- names in the inode table

  /** A name that can be packed into a directory entry and read back. */
  predicate Listable(n: Name)
  {
    NulFree(n) && |n| < 0x1_0000_0000
  }

  /** Directories hold no other names. */
  ghost predicate Clean(st: State)
  {
    forall d, n :: n in FilesOf(st, d) ==> Listable(n)
  }

  /** Replacing an entry by one whose names are clean. */
  lemma PutClean(st: State, i: nat, e: Entry)
    requires Clean(st) && i < |st.entries| && (e.content.Dir? ==> forall n :: n in e.content.files ==> Listable(n))
    ensures Clean(Put(st, i, e))
  {
    var st' := Put(st, i, e);
    forall d, n | n in FilesOf(st', d) ensures Listable(n) {
      if d != i { assert FilesOf(st', d) == FilesOf(st, d); }
    }
  }

  lemma SameContentClean(st: State, i: nat, e: Entry)
    requires Clean(st) && Live(st, i) && e.content == At(st, i).content
    ensures Clean(Put(st, i, e))
  {
    if e.content.Dir? { assert FilesOf(st, i) == e.content.files; }
    PutClean(st, i, e);
  }

  lemma {:induction false} ForgetClean(st: State, i: nat, n: nat)
    requires Clean(st) && Live(st, i)
    ensures Clean(ForgetEntry(st, i, n))
    decreases Weight(st), 2, 0
  {
    var e := At(st, i).(lookups := Sub(At(st, i).lookups, n));
    SameContentClean(st, i, e);
    PutKeepsWeight(st, i, e);
    if !(At(st, i).lookups > 1 || e.links != 0) { DeleteClean(Put(st, i, e), i); }
  }

  lemma {:induction false} DeleteClean(st: State, i: nat)
    requires Clean(st) && Live(st, i)
    ensures Clean(Delete(st, i))
    decreases Weight(st), 1, 0
  {
    OnDropClean(st, i);
    var st1 := OnDrop(st, i);
    forall d, n | n in FilesOf(Delete(st, i), d) ensures Listable(n) {
      assert FilesOf(Delete(st, i), d) == FilesOf(st1, d);
    }
  }

  lemma {:induction false} OnDropClean(st: State, i: nat)
    requires Clean(st) && Live(st, i)
    ensures Clean(OnDrop(st, i))
    decreases Weight(st), 0, 0
  {
    if FilesOf(st, i) != map[] {
      var e := At(st, i).(content := Dir(map[]));
      PutClean(st, i, e);
      EmptyingLowersWeight(st, i, e);
      DropLinksClean(Put(st, i, e), Values(FilesOf(st, i)));
    }
  }

  lemma {:induction false} DropLinksClean(st: State, cs: seq<nat>)
    requires Clean(st)
    ensures Clean(DropLinks(st, cs))
    decreases Weight(st), 3, |cs|
  {
    if cs != [] && Live(st, cs[0]) {
      var c := cs[0];
      var e := At(st, c).(lookups := At(st, c).lookups + 1, links := Sub(At(st, c).links, 1));
      SameContentClean(st, c, e);
      PutKeepsWeight(st, c, e);
      ForgetClean(Put(st, c, e), c, 1);
      DropLinksClean(ForgetEntry(Put(st, c, e), c, 1), cs[1..]);
    }
  }

  lemma DropGuardClean(st: State, i: nat)
    requires Clean(st)
    ensures Clean(DropGuard(st, i))
  {
    if Live(st, i) { ForgetClean(st, i, 1); }
  }

  lemma LookClean(st: State, i: nat)
    requires Clean(st)
    ensures Clean(Lookup(st, i).1)
    ensures Live(st, i) ==> Clean(AddLookup(st, i)) && (forall d :: FilesOf(AddLookup(st, i), d) == FilesOf(st, d))
  {
    if Live(st, i) { SameContentClean(st, i, At(st, i).(lookups := At(st, i).lookups + 1)); }
  }

  lemma LookupAtClean(st: State, inode: nat, name: Name)
    requires Clean(st)
    ensures Clean(LookupAt(st, inode, name).1)
  {
    if Live(st, inode) {
      LookClean(st, inode);
      var st1 := AddLookup(st, inode);
      DropGuardClean(st1, inode);
      var node := At(st1, inode);
      if node.content.Dir? {
        var next := if name == DOTDOT then node.parent
            else if name in node.content.files then node.content.files[name] else 0;
        LookClean(st1, next);
        DropGuardClean(Lookup(st1, next).1, inode);
      }
    }
  }

  lemma CreatedClean(st: State, parent: nat, name: Name, mode: u32, content: Content)
    requires Clean(st) && Live(st, parent) && At(st, parent).content.Dir? && FreeInRange(st)
    requires Listable(name) && (content == File || content == Dir(map[]))
    ensures Clean(Created(st, parent, name, mode, content).1)
  {
    var (inode, st1) := Allocate(st);
    assert Clean(st1) by {
      assert forall d :: FilesOf(st1, d) == FilesOf(st, d);
    }
    var st2 := Put(st1, inode, Entry(inode, parent, 0, 1, mode, content));
    PutClean(st1, inode, Entry(inode, parent, 0, 1, mode, content));
    var p := At(st, parent);
    assert FilesOf(st, parent) == p.content.files;
    var st3 := Put(st2, parent, p.(content := Dir(p.content.files[name := inode])));
    PutClean(st2, parent, p.(content := Dir(p.content.files[name := inode])));
    LookClean(st3, inode);
  }

  lemma DoCreateClean(st: State, parent: nat, name: Name, mode: u32, content: Content)
    requires Clean(st) && FreeInRange(st) && Listable(name) && (content == File || content == Dir(map[]))
    ensures Clean(DoCreate(st, parent, name, mode, content).1)
  {
    if Live(st, parent) {
      LookClean(st, parent);
      var st1 := AddLookup(st, parent);
      DropGuardClean(st1, parent);
      if At(st1, parent).content.Dir? && name !in FilesOf(st1, parent) {
        CreatedClean(st1, parent, name, mode, content);
        DropGuardClean(Created(st1, parent, name, mode, content).1, parent);
      }
    }
  }

  lemma WithoutNameClean(st: State, parent: nat, name: Name)
    requires Clean(st) && Live(st, parent)
    ensures Clean(WithFiles(st, parent, FilesOf(st, parent) - {name}))
  {
    var files := FilesOf(st, parent) - {name};
    assert forall n :: n in files ==> n in FilesOf(st, parent);
    PutClean(st, parent, At(st, parent).(content := Dir(files)));
  }

  lemma UnlinkedClean(st: State, parent: nat, name: Name)
    requires Clean(st) && Live(st, parent) && name in FilesOf(st, parent) && Live(st, FilesOf(st, parent)[name])
    ensures Clean(Unlinked(st, parent, name))
  {
    WithoutNameClean(st, parent, name);
    var c, st1 := FilesOf(st, parent)[name], WithFiles(st, parent, FilesOf(st, parent) - {name});
    SameContentClean(st1, c, At(st1, c).(links := Sub(At(st1, c).links, 1)));
  }

  lemma UnlinkNamedClean(st: State, parent: nat, name: Name, isRmdir: bool)
    requires Clean(st) && Live(st, parent) && name in FilesOf(st, parent)
    ensures Clean(UnlinkNamed(st, parent, name, isRmdir).1)
  {
    var c := FilesOf(st, parent)[name];
    WithoutNameClean(st, parent, name);
    DropGuardClean(WithFiles(st, parent, FilesOf(st, parent) - {name}), parent);
    if Live(st, c) {
      LookClean(st, c);
      var st1 := AddLookup(st, c);
      assert FilesOf(st1, parent) == FilesOf(st, parent);
      DropGuardClean(st1, c);
      DropGuardClean(DropGuard(st1, c), parent);
      UnlinkedClean(st1, parent, name);
      DropGuardClean(Unlinked(st1, parent, name), c);
      DropGuardClean(DropGuard(Unlinked(st1, parent, name), c), parent);
    }
  }

  lemma UnlinkClean(st: State, parent: nat, name: Name, isRmdir: bool)
    requires Clean(st)
    ensures Clean(Unlink(st, parent, name, isRmdir).1)
  {
    if Live(st, parent) {
      LookClean(st, parent);
      var st1 := AddLookup(st, parent);
      DropGuardClean(st1, parent);
      if At(st1, parent).content.Dir? && name in FilesOf(st1, parent) { UnlinkNamedClean(st1, parent, name, isRmdir); }
    }
  }

  lemma StepClean(w: World, op: Op)
    requires Sound(w) && Legal(w, op) && Clean(w.st) && (op.CreateOp? ==> Listable(op.name))
    ensures Clean(TableRuns.Step(w, op).st)
  {
    match op {
      case LookupOp(inode) => LookClean(w.st, inode);
      case LookupAtOp(inode, name) => LookupAtClean(w.st, inode, name);
      case CreateOp(parent, name, mode, content) =>
        AllocateFindsEmptySlot(w.st);
        DoCreateClean(w.st, parent, name, mode, content);
      case UnlinkOp(parent, name, isRmdir) => UnlinkClean(w.st, parent, name, isRmdir);
      case ForgetOp(inode, n) => if Live(w.st, inode) { ForgetClean(w.st, inode, n); }
      case DropOp(inode) => DropGuardClean(w.st, inode);
      case LeakOp(_) =>
      case IncrementOp(inode) =>
        assert inode in w.guards + w.handed;
        LookClean(w.st, inode);
    }
  }

  /** Entries are only made under names that can be listed. */
  predicate CreatesClean(ops: seq<Op>)
  {
    forall k :: 0 <= k < |ops| && ops[k].CreateOp? ==> Listable(ops[k].name)
  }

  lemma {:induction false} RunClean(w: World, ops: seq<Op>)
    requires Sound(w) && TableRuns.LegalRun(w, ops) && Clean(w.st) && CreatesClean(ops)
    ensures Clean(TableRuns.Run(w, ops).st)
    decreases |ops|
  {
    if ops != [] {
      StepKeeps(w, ops[0]);
      StepClean(w, ops[0]);
      RunClean(TableRuns.Step(w, ops[0]), ops[1..]);
    }
  }

  // ----- names the session yields

  /** The name of a new entry fits the length field of a directory entry. */
  predicate NewNameShort(b: Messages.Body)
  {
    Messages.NewNameWithin(b, 0xFFFF_FFFF)
  }

  lemma DecodedIsSane(ops: Messages.Ops, msg: seq<byte>, r: Messages.Request)
    requires r in Messages.Decode(ops, msg).requests
    ensures Messages.NamesNulFree(r.body) && NewNameShort(r.body)
  {
    DecodeFacts.EveryMessageIsSane(ops, msg);
    var rs := Messages.Decode(ops, msg).requests;
    var k :| 0 <= k < |rs| && rs[k] == r;
    assert DecodeFacts.SaneRequest(rs[k], msg);
    DecodeFacts.MessagesAreShort(msg);
  }

  lemma {:induction false} ConcatIsSane(ops: Messages.Ops, msgs: seq<seq<byte>>, r: Messages.Request)
    requires r in SessionRuns.Concat(ops, msgs)
    ensures Messages.NamesNulFree(r.body) && NewNameShort(r.body)
  {
    var last := msgs[|msgs| - 1];
    if r in Messages.Decode(ops, last).requests {
      DecodedIsSane(ops, last, r);
    } else {
      ConcatIsSane(ops, msgs[..|msgs| - 1], r);
    }
  }

  /** A request the client gets in any run. */
  predicate Yields(env: Streams.Env, events: seq<Streams.Event>, r: Messages.Request)
    requires Streams.LegalRun(env, Streams.Fresh(), events)
  {
    r in Streams.Run(env, Streams.Fresh(), events).past.yielded
  }

  lemma YieldedNamesNulFree(env: Streams.Env, events: seq<Streams.Event>, r: Messages.Request)
    requires Streams.LegalRun(env, Streams.Fresh(), events) && Yields(env, events, r)
    ensures Messages.NamesNulFree(r.body) && NewNameShort(r.body)
  {
    SessionRuns.StreamIsDecoding(env, events);
    var st := Streams.Run(env, Streams.Fresh(), events);
    assert r in st.past.yielded + Streams.Views(st, st.pending);
    ConcatIsSane(env.ops, st.past.accepted, r);
  }

  /** Entries are made for requests of the session, under the names these give. */
  ghost predicate Serves(env: Streams.Env, events: seq<Streams.Event>, ops: seq<Op>)
    requires Streams.LegalRun(env, Streams.Fresh(), events)
  {
    forall k :: 0 <= k < |ops| && ops[k].CreateOp? ==>
      exists r :: Yields(env, events, r) && Messages.NewName(r.body) == Some(ops[k].name)
  }

  lemma ServedIsClean(env: Streams.Env, events: seq<Streams.Event>, ops: seq<Op>)
    requires Streams.LegalRun(env, Streams.Fresh(), events) && Serves(env, events, ops)
    ensures CreatesClean(ops)
  {
    forall k | 0 <= k < |ops| && ops[k].CreateOp? ensures Listable(ops[k].name) {
      var r :| Yields(env, events, r) && Messages.NewName(r.body) == Some(ops[k].name);
      YieldedNamesNulFree(env, events, r);
    }
  }

  /** Operations that are legal one after the other on a new file system, and the table they lead to. */
  ghost predicate Runs(ops: seq<Op>)
  {
    StartIsSound();
    TableRuns.LegalRun(Start(), ops)
  }

  ghost function TableAfter(ops: seq<Op>): State
    requires Runs(ops)
  {
    StartIsSound();
    TableRuns.Run(Start(), ops).st
  }

  lemma CleanNames(st: State, d: nat)
    requires Clean(st)
    ensures Readdir.NamesNulFree(st, d) && forall n :: n in FilesOf(st, d) ==> |n| < 0x1_0000_0000
  {
    forall n | n in FilesOf(st, d) ensures NulFree(n) && |n| < 0x1_0000_0000 {
      assert Listable(n);
    }
  }

  /** The table is sound, and its directories can be listed. */
  lemma ServedIsSound(env: Streams.Env, events: seq<Streams.Event>, ops: seq<Op>)
    requires Streams.LegalRun(env, Streams.Fresh(), events) && Runs(ops) && Serves(env, events, ops)
    ensures Structure(TableAfter(ops), {}) && Clean(TableAfter(ops))
  {
    ServedIsClean(env, events, ops);
    StartIsSound();
    assert forall k :: FilesOf(Initial(), k) == map[];
    RunClean(Start(), ops);
    TableRuns.RunKeeps(Start(), ops);
  }

  /** In every table that serving a session leads to, exactly those pages of a directory fail that are due
      to show `..` while the slot of the parent is empty: neither a dangling child nor a name can fail
      one, and of a directory that has not been removed every page comes out. */
  lemma ServedDirectoriesList(env: Streams.Env, events: seq<Streams.Event>, ops: seq<Op>, d: nat, offset: nat,
          room: nat)
    requires Streams.LegalRun(env, Streams.Fresh(), events) && Runs(ops) && Serves(env, events, ops)
    requires Live(TableAfter(ops), d) && At(TableAfter(ops), d).content.Dir?
    ensures GoodNames(TableAfter(ops))
    ensures var st := TableAfter(ops);
            && (Readdir.PageOf(st, d, offset, room).Err? <==>
                  !Live(st, At(st, d).parent) && Readdir.DueDotDot(st, d, offset, room))
            && (Readdir.Attached(st, d) ==> Readdir.PageOf(st, d, offset, room).Ok?)
  {
    ServedIsSound(env, events, ops);
    var st := TableAfter(ops);
    CleanNames(st, d);
    Readdir.PageFailsExactly(st, d, offset, room);
    Readdir.AttachedHasParent(st, d);
  }
}
