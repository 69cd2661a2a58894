/** Legal runs of the inode table that reach the cases its weaknesses need. */
module TableCases {
  import opened Bytes
  import opened Protocol
  import opened Inodes
  import opened Forest
  import opened Table
  import opened TableRuns
  import opened TableEffects
  import opened Packing
  import opened Readdir

  // ----- single steps

  /** `ops` are legal one after the other from `w` and lead to `w'`. */
  ghost predicate Leads(w: World, ops: seq<Op>, w': World)
  {
    Sound(w) && LegalRun(w, ops) && Run(w, ops) == w'
  }

  lemma Then(w: World, op: Op, rest: seq<Op>, w': World)
    requires Sound(w) && Legal(w, op) && Leads(Step(w, op), rest, w')
    ensures Leads(w, [op] + rest, w')
  {
    assert ([op] + rest)[1..] == rest;
  }

  lemma InOneList(a: Op, b: Op, c: Op, rest: seq<Op>)
    ensures [a] + ([b] + ([c] + rest)) == [a, b, c] + rest
    ensures |rest| == 2 ==> [a, b, c] + rest == [a, b, c, rest[0], rest[1]]
  {
  }

  lemma CreateStep(w: World, parent: nat, name: Name, mode: u32, content: Content)
    requires Sound(w) && NoLeak(w.st) && CanCreate(w.st, parent, name, content)
    ensures FreeInRange(w.st)
    ensures var op, (i, st) := CreateOp(parent, name, mode, content), Created(w.st, parent, name, mode, content);
            && Legal(w, op) && Step(w, op) == World(st, w.guards + multiset{i}, w.handed)
            && Sound(Step(w, op)) && NoLeak(Step(w, op).st)
  {
    AllocateFindsEmptySlot(w.st);
    DoCreateDoesExactly(w.st, w.guards + w.handed, parent, name, mode, content);
    StepKeeps(w, CreateOp(parent, name, mode, content));
  }

  lemma UnlinkStep(w: World, parent: nat, name: Name, isRmdir: bool)
    requires Sound(w) && NoLeak(w.st) && CanGo(w.st, parent, name, isRmdir)
    ensures CanUnlink(w.st, parent, name) && Live(w.st, FilesOf(w.st, parent)[name])
    ensures var op := UnlinkOp(parent, name, isRmdir);
            && Step(w, op) == World(AfterUnlink(w.st, parent, name), w.guards, w.handed)
            && Sound(Step(w, op)) && NoLeak(Step(w, op).st)
  {
    UnlinkDoesExactly(w.st, parent, name, isRmdir);
    StepKeeps(w, UnlinkOp(parent, name, isRmdir));
  }

  lemma AfterUnlinkHeld(st: State, parent: nat, name: Name)
    requires CanUnlink(st, parent, name) && Live(st, FilesOf(st, parent)[name])
    requires FilesOf(st, parent)[name] != parent && At(st, FilesOf(st, parent)[name]).lookups > 0
    ensures AfterUnlink(st, parent, name) ==
              Put(WithFiles(st, parent, FilesOf(st, parent) - {name}), FilesOf(st, parent)[name],
                  At(st, FilesOf(st, parent)[name]).(links := 0))
  {
  }

  // ----- the tables the runs go through

  function Root(files: map<Name, nat>): Option<Entry>
  {
    Some(Entry(FUSE_ROOT_ID, FUSE_ROOT_ID, 1, 1, S_IFDIR + 0x1ED, Dir(files)))
  }

  function One2(files: map<Name, nat>, e: Entry): State
  {
    State([None, Root(files), Some(e)], [])
  }

  function Two(files: map<Name, nat>, e2: Option<Entry>, e3: Entry, free: seq<nat>): State
  {
    State([None, Root(files), e2, Some(e3)], free)
  }

  /** The first entry goes to slot 2. */
  lemma FirstEntry(name: Name, mode: u32, content: Content)
    requires content == File || content == Dir(map[])
    ensures Sound(Start()) && NoLeak(Start().st)
    ensures var op := CreateOp(FUSE_ROOT_ID, name, mode, content);
            var w := World(One2(map[name := 2], Entry(2, FUSE_ROOT_ID, 1, 1, mode, content)), multiset{2}, multiset{1});
            Legal(Start(), op) && Step(Start(), op) == w && Sound(w) && NoLeak(w.st)
  {
    StartIsSound();
    var st := Initial();
    assert FilesOf(st, FUSE_ROOT_ID) == map[];
    CreateStep(Start(), FUSE_ROOT_ID, name, mode, content);
    var (i, st1) := Created(st, FUSE_ROOT_ID, name, mode, content);
    assert i == 2 && st1.entries[1] == Root(map[name := 2]);
    assert st1.entries == One2(map[name := 2], Entry(2, FUSE_ROOT_ID, 1, 1, mode, content)).entries;
    assert multiset{} + multiset{2} == multiset{2};
  }

  // ----- a leak

  lemma LeakUnlinks(w: World, name: Name, e: Entry)
    requires Sound(w) && NoLeak(w.st) && w.st == One2(map[name := 2], e) && e.lookups > 0 && e.content == File
    ensures Step(w, UnlinkOp(FUSE_ROOT_ID, name, false)) == World(One2(map[], e.(links := 0)), w.guards, w.handed)
    ensures Sound(Step(w, UnlinkOp(FUSE_ROOT_ID, name, false)))
  {
    assert FilesOf(w.st, FUSE_ROOT_ID) == map[name := 2];
    UnlinkStep(w, FUSE_ROOT_ID, name, false);
    AfterUnlinkHeld(w.st, FUSE_ROOT_ID, name);
    assert map[name := 2] - {name} == map[];
    assert AfterUnlink(w.st, FUSE_ROOT_ID, name).entries == One2(map[], e.(links := 0)).entries;
  }

  lemma LeakForgets(w: World, e: Entry)
    requires Sound(w) && w.st == One2(map[], e) && e.lookups == 2 && w.handed == multiset{1, 2, 2}
    ensures Legal(w, ForgetOp(2, 2))
    ensures Step(w, ForgetOp(2, 2)) == World(One2(map[], e.(lookups := 0)), w.guards, multiset{1})
    ensures Sound(Step(w, ForgetOp(2, 2)))
  {
    OtherForgetStays(w.st, 2, 2);
    StepKeeps(w, ForgetOp(2, 2));
    assert multiset{1, 2, 2}[2 := 0] == multiset{1};
    assert Put(w.st, 2, e.(lookups := 0)).entries == One2(map[], e.(lookups := 0)).entries;
  }

  /** Returning both counts of an unlinked file. */
  lemma LastForgotten(w: World, name: Name, e: Entry)
    requires Sound(w) && NoLeak(w.st) && e.lookups == 2 && e.content == File
    requires w == World(One2(map[name := 2], e), multiset{}, multiset{1, 2, 2})
    ensures Leads(w, [UnlinkOp(FUSE_ROOT_ID, name, false), ForgetOp(2, 2)],
                  World(One2(map[], e.(links := 0, lookups := 0)), multiset{}, multiset{1}))
  {
    var w1 := World(One2(map[], e.(links := 0)), multiset{}, multiset{1, 2, 2});
    var w2 := World(One2(map[], e.(links := 0, lookups := 0)), multiset{}, multiset{1});
    LeakUnlinks(w, name, e);
    LeakForgets(w1, e.(links := 0));
    Then(w1, ForgetOp(2, 2), [], w2);
    Then(w, UnlinkOp(FUSE_ROOT_ID, name, false), [ForgetOp(2, 2)], w2);
  }

  /** The kernel gets two counts on a file. */
  lemma HandedOut(w: World, name: Name, e: Entry, rest: seq<Op>, end: World)
    requires Sound(w) && w == World(One2(map[name := 2], e), multiset{2}, multiset{1}) && e.lookups == 1
    requires Leads(World(One2(map[name := 2], e.(lookups := 2)), multiset{}, multiset{1, 2, 2}), rest, end)
    ensures Leads(w, [IncrementOp(2)] + ([LeakOp(2)] + rest), end)
  {
    var w1 := World(One2(map[name := 2], e.(lookups := 2)), multiset{2}, multiset{1, 2});
    CountGiven(w, name, e);
    StepKeeps(w1, LeakOp(2));
    assert multiset{1, 2} + multiset{2} == multiset{1, 2, 2} && multiset{2} - multiset{2} == multiset{};
    Then(w1, LeakOp(2), rest, end);
    Then(w, IncrementOp(2), [LeakOp(2)] + rest, end);
  }

  lemma CountGiven(w: World, name: Name, e: Entry)
    requires Sound(w) && w == World(One2(map[name := 2], e), multiset{2}, multiset{1}) && e.lookups == 1
    ensures Legal(w, IncrementOp(2))
    ensures Step(w, IncrementOp(2)) == World(One2(map[name := 2], e.(lookups := 2)), multiset{2}, multiset{1, 2})
    ensures Sound(Step(w, IncrementOp(2))) && (NoLeak(w.st) ==> NoLeak(Step(w, IncrementOp(2)).st))
  {
    StepKeeps(w, IncrementOp(2));
    assert AddLookup(w.st, 2).entries == One2(map[name := 2], e.(lookups := 2)).entries;
    assert multiset{1} + multiset{2} == multiset{1, 2};
  }

  lemma HandedOutIsSound(w: World, name: Name, e: Entry)
    requires Sound(w) && NoLeak(w.st) && w == World(One2(map[name := 2], e), multiset{2}, multiset{1}) && e.lookups == 1
    ensures var w' := World(One2(map[name := 2], e.(lookups := 2)), multiset{}, multiset{1, 2, 2});
            Sound(w') && NoLeak(w'.st)
  {
    CountGiven(w, name, e);
    StepKeeps(Step(w, IncrementOp(2)), LeakOp(2));
    assert multiset{1, 2} + multiset{2} == multiset{1, 2, 2} && multiset{2} - multiset{2} == multiset{};
  }

  /** The last two counts of an unlinked file are forgotten at once: it is left with no count, no link and
      no name, and stays. */
  lemma TwoCountsLeak(name: Name, mode: u32)
    ensures var ops := [CreateOp(FUSE_ROOT_ID, name, mode, File), IncrementOp(2), LeakOp(2),
                        UnlinkOp(FUSE_ROOT_ID, name, false), ForgetOp(2, 2)];
            var left := One2(map[], Entry(2, FUSE_ROOT_ID, 0, 0, mode, File));
            Leads(Start(), ops, World(left, multiset{}, multiset{1})) && !NoLeak(left)
  {
    var e, left := Entry(2, FUSE_ROOT_ID, 1, 1, mode, File), One2(map[], Entry(2, FUSE_ROOT_ID, 0, 0, mode, File));
    var w1 := World(One2(map[name := 2], e), multiset{2}, multiset{1});
    var w3 := World(One2(map[name := 2], e.(lookups := 2)), multiset{}, multiset{1, 2, 2});
    var end := World(left, multiset{}, multiset{1});
    var last := [UnlinkOp(FUSE_ROOT_ID, name, false), ForgetOp(2, 2)];
    FirstEntry(name, mode, File);
    HandedOutIsSound(w1, name, e);
    LastForgotten(w3, name, e.(lookups := 2));
    HandedOut(w1, name, e, last, end);
    Then(Start(), CreateOp(FUSE_ROOT_ID, name, mode, File), [IncrementOp(2)] + ([LeakOp(2)] + last), end);
    InOneList(CreateOp(FUSE_ROOT_ID, name, mode, File), IncrementOp(2), LeakOp(2), last);
    Leaked(left);
  }

  lemma Leaked(st: State)
    requires Live(st, 2) && At(st, 2).lookups == 0 && At(st, 2).links == 0
    ensures !NoLeak(st)
  {
  }

  // ----- a forget of nothing

  /** A file is unlinked while a guard on it is open; forgetting zero counts then frees it, and the guard is
      left without its entry. */
  lemma ForgetOfNothingFrees(name: Name, mode: u32)
    ensures var ops := [CreateOp(FUSE_ROOT_ID, name, mode, File), UnlinkOp(FUSE_ROOT_ID, name, false)];
            var st := One2(map[], Entry(2, FUSE_ROOT_ID, 1, 0, mode, File));
            && Leads(Start(), ops, World(st, multiset{2}, multiset{1}))
            && Forget(st, 2, 0).0 == Ok(()) && !Live(Forget(st, 2, 0).1, 2)
  {
    var e := Entry(2, FUSE_ROOT_ID, 1, 1, mode, File);
    var w1 := World(One2(map[name := 2], e), multiset{2}, multiset{1});
    var w2 := World(One2(map[], e.(links := 0)), multiset{2}, multiset{1});
    FirstEntry(name, mode, File);
    LeakUnlinks(w1, name, e);
    Then(w1, UnlinkOp(FUSE_ROOT_ID, name, false), [], w2);
    Then(Start(), CreateOp(FUSE_ROOT_ID, name, mode, File), [UnlinkOp(FUSE_ROOT_ID, name, false)], w2);
    LastForgetDeletes(w2.st, 2, 0);
  }

  // ----- directories whose parent is gone

  function EmptyDir(inode: nat, parent: nat, lookups: nat, links: nat, mode: u32): Entry
  {
    Entry(inode, parent, lookups, links, mode, Dir(map[]))
  }

  /** `b` in `a` in the root, with a guard on each. */
  function Nested(a: Name, b: Name, mode: u32): World
  {
    World(Two(map[a := 2], Some(EmptyDir(2, FUSE_ROOT_ID, 1, 1, mode).(content := Dir(map[b := 3]))),
              EmptyDir(3, 2, 1, 1, mode), []), multiset{2, 3}, multiset{1})
  }

  /** `b` removed, */
  function InnerRemoved(a: Name, mode: u32): World
  {
    World(Two(map[a := 2], Some(EmptyDir(2, FUSE_ROOT_ID, 1, 1, mode)), EmptyDir(3, 2, 1, 0, mode), []),
          multiset{2, 3}, multiset{1})
  }

  /** then `a`, */
  function BothRemoved(mode: u32): World
  {
    World(Two(map[], Some(EmptyDir(2, FUSE_ROOT_ID, 1, 0, mode)), EmptyDir(3, 2, 1, 0, mode), []),
          multiset{2, 3}, multiset{1})
  }

  /** and the guard on `a` dropped: its number is free. */
  function Orphan(mode: u32): World
  {
    World(Two(map[], None, EmptyDir(3, 2, 1, 0, mode), [2]), multiset{3}, multiset{1})
  }

  lemma NestedCreated(w: World, a: Name, b: Name, mode: u32)
    requires Sound(w) && NoLeak(w.st)
    requires w == World(One2(map[a := 2], EmptyDir(2, FUSE_ROOT_ID, 1, 1, mode)), multiset{2}, multiset{1})
    ensures var op := CreateOp(2, b, mode, Dir(map[]));
            Legal(w, op) && Step(w, op) == Nested(a, b, mode) && Sound(Nested(a, b, mode))
                && NoLeak(Nested(a, b, mode).st)
  {
    assert FilesOf(w.st, 2) == map[];
    CreateStep(w, 2, b, mode, Dir(map[]));
    var (i, st) := Created(w.st, 2, b, mode, Dir(map[]));
    assert st.entries == Nested(a, b, mode).st.entries;
    assert multiset{2} + multiset{3} == multiset{2, 3};
  }

  lemma InnerUnlinked(a: Name, b: Name, mode: u32)
    requires Sound(Nested(a, b, mode)) && NoLeak(Nested(a, b, mode).st)
    ensures var op := UnlinkOp(2, b, true);
            && Step(Nested(a, b, mode), op) == InnerRemoved(a, mode)
            && Sound(InnerRemoved(a, mode)) && NoLeak(InnerRemoved(a, mode).st)
  {
    var w := Nested(a, b, mode);
    assert FilesOf(w.st, 2) == map[b := 3];
    UnlinkStep(w, 2, b, true);
    AfterUnlinkHeld(w.st, 2, b);
    assert map[b := 3] - {b} == map[];
    assert AfterUnlink(w.st, 2, b).entries == InnerRemoved(a, mode).st.entries;
  }

  lemma OuterUnlinked(a: Name, mode: u32)
    requires Sound(InnerRemoved(a, mode)) && NoLeak(InnerRemoved(a, mode).st)
    ensures var op := UnlinkOp(FUSE_ROOT_ID, a, true);
            && Step(InnerRemoved(a, mode), op) == BothRemoved(mode)
            && Sound(BothRemoved(mode)) && NoLeak(BothRemoved(mode).st)
  {
    var w := InnerRemoved(a, mode);
    assert FilesOf(w.st, FUSE_ROOT_ID) == map[a := 2];
    UnlinkStep(w, FUSE_ROOT_ID, a, true);
    AfterUnlinkHeld(w.st, FUSE_ROOT_ID, a);
    assert map[a := 2] - {a} == map[];
    assert AfterUnlink(w.st, FUSE_ROOT_ID, a).entries == BothRemoved(mode).st.entries;
  }

  lemma OuterFreed(mode: u32)
    requires Sound(BothRemoved(mode)) && NoLeak(BothRemoved(mode).st)
    ensures Legal(BothRemoved(mode), DropOp(2)) && Step(BothRemoved(mode), DropOp(2)) == Orphan(mode)
    ensures Sound(Orphan(mode)) && NoLeak(Orphan(mode).st)
  {
    var w := BothRemoved(mode);
    StepKeeps(w, DropOp(2));
    DropUnlinked(w.st, 2);
    assert w.st.entries[2 := None] == Orphan(mode).st.entries;
    assert multiset{2, 3} - multiset{2} == multiset{3};
  }

  /** From `b` in `a` to the directory left behind. */
  lemma OrphanMade(a: Name, b: Name, mode: u32, rest: seq<Op>, end: World)
    requires Sound(Nested(a, b, mode)) && NoLeak(Nested(a, b, mode).st) && Leads(Orphan(mode), rest, end)
    ensures Leads(Nested(a, b, mode),
                  [UnlinkOp(2, b, true)] + ([UnlinkOp(FUSE_ROOT_ID, a, true)] + ([DropOp(2)] + rest)), end)
  {
    InnerUnlinked(a, b, mode);
    OuterUnlinked(a, mode);
    OuterFreed(mode);
    Then(BothRemoved(mode), DropOp(2), rest, end);
    Then(InnerRemoved(a, mode), UnlinkOp(FUSE_ROOT_ID, a, true), [DropOp(2)] + rest, end);
    Then(Nested(a, b, mode), UnlinkOp(2, b, true), [UnlinkOp(FUSE_ROOT_ID, a, true)] + ([DropOp(2)] + rest), end);
  }

  lemma OrphanIsSound(a: Name, b: Name, mode: u32)
    requires Sound(Nested(a, b, mode)) && NoLeak(Nested(a, b, mode).st)
    ensures Sound(Orphan(mode)) && NoLeak(Orphan(mode).st)
  {
    InnerUnlinked(a, b, mode);
    OuterUnlinked(a, mode);
    OuterFreed(mode);
  }

  /** Two nested directories, removed from the inside out while the inner one is looked at. */
  function RemoveBoth(a: Name, b: Name, mode: u32): seq<Op>
  {
    [CreateOp(FUSE_ROOT_ID, a, mode, Dir(map[])), CreateOp(2, b, mode, Dir(map[])),
     UnlinkOp(2, b, true), UnlinkOp(FUSE_ROOT_ID, a, true), DropOp(2)]
  }

  lemma OrphanReached(a: Name, b: Name, mode: u32, rest: seq<Op>, end: World)
    requires Leads(Orphan(mode), rest, end)
    ensures Leads(Start(), RemoveBoth(a, b, mode) + rest, end)
  {
    var w := World(One2(map[a := 2], EmptyDir(2, FUSE_ROOT_ID, 1, 1, mode)), multiset{2}, multiset{1});
    FirstEntry(a, mode, Dir(map[]));
    NestedCreated(w, a, b, mode);
    OrphanMade(a, b, mode, rest, end);
    var ops := [UnlinkOp(2, b, true)] + ([UnlinkOp(FUSE_ROOT_ID, a, true)] + ([DropOp(2)] + rest));
    Then(w, CreateOp(2, b, mode, Dir(map[])), ops, end);
    Then(Start(), CreateOp(FUSE_ROOT_ID, a, mode, Dir(map[])), [CreateOp(2, b, mode, Dir(map[]))] + ops, end);
    FiveThen(CreateOp(FUSE_ROOT_ID, a, mode, Dir(map[])), CreateOp(2, b, mode, Dir(map[])), UnlinkOp(2, b, true),
             UnlinkOp(FUSE_ROOT_ID, a, true), DropOp(2), rest);
  }

  lemma FiveThen(a: Op, b: Op, c: Op, d: Op, e: Op, rest: seq<Op>)
    ensures [a] + ([b] + ([c] + ([d] + ([e] + rest)))) == [a, b, c, d, e] + rest
  {
  }

  lemma OrphanSound(mode: u32)
    ensures Sound(Orphan(mode)) && NoLeak(Orphan(mode).st)
  {
    var w := World(One2(map[DOT := 2], EmptyDir(2, FUSE_ROOT_ID, 1, 1, mode)), multiset{2}, multiset{1});
    FirstEntry(DOT, mode, Dir(map[]));
    NestedCreated(w, DOT, DOT, mode);
    OrphanIsSound(DOT, DOT, mode);
  }

  /** A legal run that ends with a directory no page of which comes out from the start. */
  lemma OrphanCannotBeListed(a: Name, b: Name, mode: u32, room: nat)
    ensures Leads(Start(), RemoveBoth(a, b, mode), Orphan(mode)) && NoLeak(Orphan(mode).st)
    ensures GoodNames(Orphan(mode).st) && PageOf(Orphan(mode).st, 3, 0, room) == Err(ENOENT)
  {
    var st := Orphan(mode).st;
    OrphanSound(mode);
    OrphanReached(a, b, mode, [], Orphan(mode));
    assert RemoveBoth(a, b, mode) + [] == RemoveBoth(a, b, mode);
    assert FilesOf(st, 3) == map[] && Children(st, 3) == [];
  }

  /** The number of the freed parent taken by a file `x` in the root, with `lookups` guards on it. */
  function Reused(x: Name, mode: u32, fileMode: u32, lookups: nat, guards: multiset<nat>): World
  {
    World(Two(map[x := 2], Some(Entry(2, FUSE_ROOT_ID, lookups, 1, fileMode, File)), EmptyDir(3, 2, 1, 0, mode), []),
          guards, multiset{1})
  }

  lemma NumberReused(x: Name, mode: u32, fileMode: u32)
    requires Sound(Orphan(mode)) && NoLeak(Orphan(mode).st)
    ensures var op, w := CreateOp(FUSE_ROOT_ID, x, fileMode, File), Reused(x, mode, fileMode, 1, multiset{2, 3});
            Legal(Orphan(mode), op) && Step(Orphan(mode), op) == w && Sound(w) && NoLeak(w.st)
  {
    var w := Orphan(mode);
    assert FilesOf(w.st, FUSE_ROOT_ID) == map[];
    CreateStep(w, FUSE_ROOT_ID, x, fileMode, File);
    var (i, st) := Created(w.st, FUSE_ROOT_ID, x, fileMode, File);
    assert st.entries == Reused(x, mode, fileMode, 1, multiset{2, 3}).st.entries;
    assert multiset{3} + multiset{2} == multiset{2, 3};
  }

  lemma ReuseClosed(x: Name, mode: u32, fileMode: u32)
    requires var w := Reused(x, mode, fileMode, 1, multiset{2, 3}); Sound(w) && NoLeak(w.st)
    ensures var w, w' := Reused(x, mode, fileMode, 1, multiset{2, 3}), Reused(x, mode, fileMode, 0, multiset{3});
            Legal(w, DropOp(2)) && Step(w, DropOp(2)) == w' && Sound(w') && NoLeak(w'.st)
  {
    var w := Reused(x, mode, fileMode, 1, multiset{2, 3});
    StepKeeps(w, DropOp(2));
    OtherForgetStays(w.st, 2, 1);
    assert multiset{2, 3} - multiset{2} == multiset{3};
    assert Put(w.st, 2, At(w.st, 2).(lookups := 0)).entries == Reused(x, mode, fileMode, 0, multiset{3}).st.entries;
  }

  /** A longer run reuses the number: the table is sound and leaks nothing, the removed directory still
      names entry 2 as its parent, and every page of it comes out, with a file of the root as `..`. */
  lemma OrphanShowsStranger(a: Name, b: Name, x: Name, mode: u32, fileMode: u32, offset: nat, room: nat)
    ensures var w := Reused(x, mode, fileMode, 0, multiset{3});
            && Leads(Start(), RemoveBoth(a, b, mode) + [CreateOp(FUSE_ROOT_ID, x, fileMode, File), DropOp(2)], w)
            && Inv(w.st, w.guards + w.handed) && NoLeak(w.st)
            && !Attached(w.st, 3) && At(w.st, At(w.st, 3).parent).content.File?
            && PageOf(w.st, 3, offset, room).Ok?
            && DotDotEntry(w.st, 3) == Ok(Dirent(2, 1, ModeToDirentType(fileMode), DOTDOT))
  {
    var open, w := Reused(x, mode, fileMode, 1, multiset{2, 3}), Reused(x, mode, fileMode, 0, multiset{3});
    OrphanSound(mode);
    NumberReused(x, mode, fileMode);
    ReuseClosed(x, mode, fileMode);
    Then(open, DropOp(2), [], w);
    Then(Orphan(mode), CreateOp(FUSE_ROOT_ID, x, fileMode, File), [DropOp(2)], w);
    OrphanReached(a, b, mode, [CreateOp(FUSE_ROOT_ID, x, fileMode, File), DropOp(2)], w);
    StrangerListed(w.st, mode, fileMode, x, offset, room);
  }

  lemma StrangerListed(st: State, mode: u32, fileMode: u32, x: Name, offset: nat, room: nat)
    requires st == Reused(x, mode, fileMode, 0, multiset{3}).st && GoodNames(st)
    ensures !Attached(st, 3) && PageOf(st, 3, offset, room).Ok?
    ensures DotDotEntry(st, 3) == Ok(Dirent(2, 1, ModeToDirentType(fileMode), DOTDOT))
  {
    assert FilesOf(st, 3) == map[] && FilesOf(st, 2) == map[];
    OrphanShowsOccupant(st, 3, offset, room);
  }
}
