/** The operations of the inode table keep its invariant, in any order and number. */
module TableRuns {
  import opened Bytes
  import opened Protocol
  import opened Inodes
  import opened Forest
  import opened Table

  // ----- creating

  ghost predicate CanCreate(st: State, parent: nat, name: Name, content: Content)
  {
    && Live(st, parent) && At(st, parent).content.Dir? && name !in FilesOf(st, parent)
    && (content == File || content == Dir(map[]))
  }

  /** The slot a new entry takes is empty and not one of the first two. */
  lemma AllocateFindsEmptySlot(st: State)
    requires Roots(st) && FreeExact(st)
    ensures FreeInRange(st)
    ensures var (i, st1) := Allocate(st);
            && i >= 2 && !Live(st, i) && i < |st1.entries|
            && (forall k: nat :: k in st1.free <==> k in st.free && k != i) && Distinct(st1.free)
            && st1.entries == if i < |st.entries| then st.entries else st.entries + [None]
  {
    forall k | 0 <= k < |st.free| ensures st.free[k] < |st.entries| {
      assert st.free[k] in st.free;
    }
    if st.free != [] {
      var last := |st.free| - 1;
      assert st.free[last] in st.free && st.free == st.free[..last] + [st.free[last]];
    }
  }

  lemma CreatedShape(st: State, parent: nat, name: Name, mode: u32, content: Content)
    requires Roots(st) && GoodNames(st) && FreeExact(st) && FreeInRange(st) && CanCreate(st, parent, name, content)
    ensures var (i, st') := Created(st, parent, name, mode, content);
            && i >= 2 && !Live(st, i) && i != parent
            && (forall k :: Live(st', k) <==> Live(st, k) || k == i)
            && At(st', i) == Entry(i, parent, 1, 1, mode, content)
            && (forall k :: Live(st, k) && k != parent ==> At(st', k) == At(st, k))
            && At(st', parent) == At(st, parent).(content := Dir(FilesOf(st, parent)[name := i]))
            && (forall d :: FilesOf(st', d) == if d == parent then FilesOf(st, parent)[name := i] else FilesOf(st, d))
  {
    AllocateFindsEmptySlot(st);
    var (i, st') := Created(st, parent, name, mode, content);
    assert forall k :: 0 <= k < |st.entries| && k != i && k != parent ==> st'.entries[k] == st.entries[k];
  }

  lemma CreatedKeepsStructure(st: State, parent: nat, name: Name, mode: u32, content: Content)
    requires Structure(st, {}) && FreeExact(st) && FreeInRange(st) && CanCreate(st, parent, name, content)
    ensures Structure(Created(st, parent, name, mode, content).1, {})
  {
    CreatedShape(st, parent, name, mode, content);
    var (i, st') := Created(st, parent, name, mode, content);
    forall d, n | n in FilesOf(st', d) ensures GoodChild(st', d, FilesOf(st', d)[n]) {
      if !(d == parent && n == name) { assert GoodChild(st, d, FilesOf(st, d)[n]); }
    }
    forall d, n | n in FilesOf(st, d) ensures FilesOf(st, d)[n] != i {
      assert GoodChild(st, d, FilesOf(st, d)[n]);
    }
    forall k | Live(st', k)
      ensures At(st', k).links == One(k == FUSE_ROOT_ID) + One(Linked(st', k))
    {
      CreatedLinked(st, parent, name, mode, content, k);
    }
  }

  lemma CreatedLinked(st: State, parent: nat, name: Name, mode: u32, content: Content, k: nat)
    requires Structure(st, {}) && FreeExact(st) && FreeInRange(st) && CanCreate(st, parent, name, content)
    requires Live(Created(st, parent, name, mode, content).1, k)
    ensures var (i, st') := Created(st, parent, name, mode, content);
            Linked(st', k) <==> k == i || (Live(st, k) && Linked(st, k))
  {
    CreatedShape(st, parent, name, mode, content);
    var (i, st') := Created(st, parent, name, mode, content);
    if k == i {
      assert FilesOf(st', parent)[name] == i;
    } else {
      var d := At(st, k).parent;
      assert At(st', k).parent == d;
      if Names(st, d, k) {
        var n :| n in FilesOf(st, d) && FilesOf(st, d)[n] == k;
        assert n in FilesOf(st', d) && FilesOf(st', d)[n] == k;
      }
      if Names(st', d, k) {
        var n :| n in FilesOf(st', d) && FilesOf(st', d)[n] == k;
        assert n in FilesOf(st, d) && FilesOf(st, d)[n] == k;
      }
    }
  }

  lemma CreatedKeepsAcyclic(st: State, parent: nat, name: Name, mode: u32, content: Content)
    requires Structure(st, {}) && Acyclic(st) && FreeExact(st) && FreeInRange(st)
              && CanCreate(st, parent, name, content)
    ensures Acyclic(Created(st, parent, name, mode, content).1)
  {
    CreatedShape(st, parent, name, mode, content);
    var (i, st') := Created(st, parent, name, mode, content);
    NewNameKeepsAcyclic(st, st', parent, name, i);
  }

  /** A new name for an entry that names nothing closes no cycle. */
  lemma NewNameKeepsAcyclic(st: State, st': State, parent: nat, name: Name, i: nat)
    requires GoodNames(st) && Acyclic(st) && !Live(st, i) && i != parent
    requires forall d :: FilesOf(st', d) == if d == parent then FilesOf(st, parent)[name := i] else FilesOf(st, d)
    ensures Acyclic(st')
  {
    var rank: nat -> nat :| Ranked(st, rank);
    var rank' := (k: nat) => if k == i then rank(parent) + 1 else rank(k);
    forall d, n | n in FilesOf(st', d) ensures rank'(d) < rank'(FilesOf(st', d)[n]) {
      if !(d == parent && n == name) {
        assert n in FilesOf(st, d) && GoodChild(st, d, FilesOf(st, d)[n]);
        assert rank(d) < rank(FilesOf(st, d)[n]);
      }
    }
    assert Ranked(st', rank');
  }

  /** A new entry never replaces a live one, even when its number is reused. */
  lemma CreatedKeeps(st: State, held: multiset<nat>, parent: nat, name: Name, mode: u32, content: Content)
    requires Inv(st, held) && CanCreate(st, parent, name, content)
    ensures FreeInRange(st)
    ensures var (i, st') := Created(st, parent, name, mode, content);
            && !Live(st, i) && Live(st', i)
            && Inv(st', held + multiset{i}) && (NoLeak(st) ==> NoLeak(st'))
            && FilesOf(st', parent) == FilesOf(st, parent)[name := i]
  {
    AllocateFindsEmptySlot(st);
    CreatedShape(st, parent, name, mode, content);
    CreatedKeepsStructure(st, parent, name, mode, content);
    CreatedKeepsAcyclic(st, parent, name, mode, content);
    CreatedKeepsFree(st, parent, name, mode, content);
    var (i, st') := Created(st, parent, name, mode, content);
    assert held[i] == 0;
  }

  lemma CreatedKeepsFree(st: State, parent: nat, name: Name, mode: u32, content: Content)
    requires Roots(st) && GoodNames(st) && FreeExact(st) && FreeInRange(st) && CanCreate(st, parent, name, content)
    ensures FreeExact(Created(st, parent, name, mode, content).1)
  {
    AllocateFindsEmptySlot(st);
    CreatedShape(st, parent, name, mode, content);
    var (i, st') := Created(st, parent, name, mode, content);
    assert st'.free == Allocate(st).1.free && |st'.entries| == |Allocate(st).1.entries|;
    forall k: nat ensures k in st'.free <==> 2 <= k < |st'.entries| && st'.entries[k].None? {
      assert Live(st', k) <==> Live(st, k) || k == i;
    }
  }

  // ----- unlinking

  ghost predicate CanUnlink(st: State, parent: nat, name: Name)
  {
    Live(st, parent) && name in FilesOf(st, parent)
  }

  lemma NameTakenShape(st: State, parent: nat, name: Name)
    requires Roots(st) && GoodNames(st) && CanUnlink(st, parent, name)
    ensures var st1 := WithFiles(st, parent, FilesOf(st, parent) - {name});
            && Roots(st1) && GoodNames(st1)
            && (forall k :: Live(st1, k) <==> Live(st, k))
            && (forall k :: Live(st, k) && k != parent ==> At(st1, k) == At(st, k))
            && (forall d :: FilesOf(st1, d) == if d == parent then FilesOf(st, parent) - {name} else FilesOf(st, d))
  {
    var files := FilesOf(st, parent);
    var st1 := WithFiles(st, parent, files - {name});
    assert forall k :: Live(st1, k) <==> Live(st, k);
    assert forall d :: FilesOf(st1, d) == if d == parent then files - {name} else FilesOf(st, d);
    forall d, n | n in FilesOf(st1, d) ensures GoodChild(st1, d, FilesOf(st1, d)[n]) {
      assert GoodChild(st, d, FilesOf(st, d)[n]);
    }
  }

  /** Taking one name away leaves its entry waiting for its link to be dropped. */
  lemma NameTaken(st: State, parent: nat, name: Name)
    requires Structure(st, {}) && Acyclic(st) && CanUnlink(st, parent, name)
    ensures var c, st1 := FilesOf(st, parent)[name], WithFiles(st, parent, FilesOf(st, parent) - {name});
            GoodChild(st, parent, c) && Structure(st1, {c}) && c != parent
  {
    var c, st1 := FilesOf(st, parent)[name], WithFiles(st, parent, FilesOf(st, parent) - {name});
    assert GoodChild(st, parent, c);
    SelfNotNamed(st, parent);
    NameTakenShape(st, parent, name);
    forall k | Live(st, k) ensures Linked(st1, k) <==> Linked(st, k) && k != c {
      TakenLinked(st, parent, name, k);
    }
  }

  lemma SelfNotNamed(st: State, d: nat)
    requires Acyclic(st)
    ensures !Names(st, d, d)
  {
    if Names(st, d, d) { NoCycle(st, [d, d]); }
  }

  lemma TakenLinked(st: State, parent: nat, name: Name, k: nat)
    requires Structure(st, {}) && CanUnlink(st, parent, name) && Live(st, k)
    ensures var st1 := WithFiles(st, parent, FilesOf(st, parent) - {name});
            Live(st1, k) && (Linked(st1, k) <==> Linked(st, k) && k != FilesOf(st, parent)[name])
  {
    var files := FilesOf(st, parent);
    var st1 := WithFiles(st, parent, files - {name});
    var d := At(st, k).parent;
    assert GoodChild(st, parent, files[name]);
    if Names(st, d, k) && k != files[name] {
      var n :| n in FilesOf(st, d) && FilesOf(st, d)[n] == k;
      assert n in FilesOf(st1, d) && FilesOf(st1, d)[n] == k;
    }
    if Names(st1, d, k) {
      var n :| n in FilesOf(st1, d) && FilesOf(st1, d)[n] == k;
      assert n in FilesOf(st, d) && FilesOf(st, d)[n] == k;
    }
  }

  /** Unlinking an entry that is being looked at, and whose looks are counted. */
  lemma UnlinkedKeeps(st: State, held: multiset<nat>, parent: nat, name: Name)
    requires Inv(st, held) && CanUnlink(st, parent, name) && FilesOf(st, parent)[name] in held
    ensures Live(st, FilesOf(st, parent)[name])
    ensures var st' := Unlinked(st, parent, name);
            && Inv(st', held) && (NoLeak(st) ==> NoLeak(st'))
            && FilesOf(st', parent) == FilesOf(st, parent) - {name}
            && At(st, FilesOf(st, parent)[name]).links == 1
            && At(st', FilesOf(st, parent)[name]).links == 0
  {
    var c := FilesOf(st, parent)[name];
    NameTaken(st, parent, name);
    NameTakenShape(st, parent, name);
    UnlinkedStructure(st, parent, name);
    var st' := Unlinked(st, parent, name);
    FewerNames(st, st');
    UnlinkedFree(st, parent, name);
    assert At(st, c).lookups > 0;
  }

  lemma UnlinkedStructure(st: State, parent: nat, name: Name)
    requires Structure(st, {}) && Acyclic(st) && CanUnlink(st, parent, name)
    ensures var c := FilesOf(st, parent)[name];
            && Live(st, c) && At(st, c).links == 1
            && var st' := Unlinked(st, parent, name);
               && Structure(st', {}) && At(st', c) == At(st, c).(links := 0)
               && (forall k :: Live(st', k) <==> Live(st, k))
               && (forall k :: Live(st, k) && k != parent && k != c ==> At(st', k) == At(st, k))
               && At(st', parent) == At(st, parent).(content := Dir(FilesOf(st, parent) - {name}))
               && (forall d :: FilesOf(st', d) == if d == parent then FilesOf(st, parent) - {name} else FilesOf(st, d))
  {
    var files := FilesOf(st, parent);
    var c, st1 := files[name], WithFiles(st, parent, files - {name});
    NameTaken(st, parent, name);
    NameTakenShape(st, parent, name);
    var e := At(st1, c);
    DropPendingLink(st1, c, e.lookups, {c});
    assert Unlinked(st, parent, name) == Put(st1, c, e.(lookups := e.lookups, links := 0)) && {c} - {c} == {};
    CountsOnly(st1, c, e.(links := 0));
  }

  lemma UnlinkedFree(st: State, parent: nat, name: Name)
    requires Structure(st, {}) && Acyclic(st) && FreeExact(st) && CanUnlink(st, parent, name)
    ensures Live(st, FilesOf(st, parent)[name]) && FreeExact(Unlinked(st, parent, name))
  {
    UnlinkedStructure(st, parent, name);
    var st' := Unlinked(st, parent, name);
    forall k: nat ensures k in st'.free <==> 2 <= k < |st'.entries| && st'.entries[k].None? {
      assert Live(st', k) <==> Live(st, k);
    }
  }

  // ----- runs

  datatype Op =
    | LookupOp(inode: nat)
    | LookupAtOp(inode: nat, name: Name)
    | CreateOp(parent: nat, name: Name, mode: u32, content: Content)
    | UnlinkOp(parent: nat, name: Name, isRmdir: bool)
    | ForgetOp(inode: nat, n: nat)
    | DropOp(inode: nat)
    | LeakOp(inode: nat)
    | IncrementOp(inode: nat)

  /** The table, the open guards, and the counts handed out by leaking or incrementing. */
  datatype World = World(st: State, guards: multiset<nat>, handed: multiset<nat>)

  ghost predicate Sound(w: World)
  {
    Inv(w.st, w.guards + w.handed)
  }

  /** What the callers owe: guards they use are open, created entries are new, and a forget returns at
      least one and at most what was handed out. */
  predicate Legal(w: World, op: Op)
  {
    match op
    case CreateOp(_, _, _, content) => content == File || content == Dir(map[])
    case ForgetOp(inode, n) => Live(w.st, inode) ==> 1 <= n <= w.handed[inode]
    case DropOp(inode) => inode in w.guards
    case LeakOp(inode) => inode in w.guards
    case IncrementOp(inode) => inode in w.guards
    case _ => true
  }

  /** A forget of a single count, as opposed to a batch of them. */
  predicate ForgetsSingly(op: Op)
  {
    op.ForgetOp? ==> op.n == 1
  }

  function Opened(w: World, r: Result<nat>, st: State): World
  {
    World(st, if r.Ok? then w.guards + multiset{r.value} else w.guards, w.handed)
  }

  ghost function Step(w: World, op: Op): World
    requires Sound(w) && Legal(w, op)
  {
    match op
    case LookupOp(inode) => var (r, st) := Lookup(w.st, inode); Opened(w, r, st)
    case LookupAtOp(inode, name) => var (r, st) := LookupAt(w.st, inode, name); Opened(w, r, st)
    case CreateOp(parent, name, mode, content) =>
      AllocateFindsEmptySlot(w.st);
      var (r, st) := DoCreate(w.st, parent, name, mode, content); Opened(w, r, st)
    case UnlinkOp(parent, name, isRmdir) => World(Unlink(w.st, parent, name, isRmdir).1, w.guards, w.handed)
    case ForgetOp(inode, n) =>
      World(Forget(w.st, inode, n).1, w.guards,
            if Live(w.st, inode) then w.handed[inode := w.handed[inode] - n] else w.handed)
    case DropOp(inode) => World(DropGuard(w.st, inode), w.guards - multiset{inode}, w.handed)
    case LeakOp(inode) => World(w.st, w.guards - multiset{inode}, w.handed + multiset{inode})
    case IncrementOp(inode) =>
      assert w.guards + w.handed >= multiset{inode};
      World(AddLookup(w.st, inode), w.guards, w.handed + multiset{inode})
  }

  /** A sound table, leak-free if `tidy`. */
  ghost predicate Good(st: State, held: multiset<nat>, tidy: bool)
  {
    Inv(st, held) && (tidy ==> NoLeak(st))
  }

  function Held(held: multiset<nat>, r: Result<nat>): multiset<nat>
  {
    if r.Ok? then held + multiset{r.value} else held
  }

  lemma Opening(st: State, held: multiset<nat>, i: nat, tidy: bool)
    requires Good(st, held, tidy) && Live(st, i)
    ensures Good(AddLookup(st, i), held + multiset{i}, tidy)
  {
    AddLookupKeeps(st, held, i);
  }

  lemma Closing(st: State, held: multiset<nat>, i: nat, tidy: bool)
    requires Good(st, held, tidy) && i in held
    ensures Live(st, i) && Good(DropGuard(st, i), held - multiset{i}, tidy)
  {
    DropGuardKeeps(st, held, i);
  }

  /** Closing the first of two guards that were opened. */
  lemma ClosingFirst(st: State, held: multiset<nat>, i: nat, r: Result<nat>, tidy: bool)
    requires Good(st, Held(held + multiset{i}, r), tidy)
    ensures Good(DropGuard(st, i), Held(held, r), tidy)
  {
    Closing(st, Held(held + multiset{i}, r), i, tidy);
    assert Held(held + multiset{i}, r) - multiset{i} == Held(held, r);
  }

  lemma LookupKeeps(st: State, held: multiset<nat>, inode: nat, tidy: bool)
    requires Good(st, held, tidy)
    ensures Good(Lookup(st, inode).1, Held(held, Lookup(st, inode).0), tidy)
  {
    if Live(st, inode) { Opening(st, held, inode, tidy); }
  }

  lemma LookupThenDrop(st: State, held: multiset<nat>, inode: nat, g: nat, tidy: bool)
    requires Good(st, held + multiset{g}, tidy)
    ensures Good(DropGuard(Lookup(st, inode).1, g), Held(held, Lookup(st, inode).0), tidy)
  {
    LookupKeeps(st, held + multiset{g}, inode, tidy);
    ClosingFirst(Lookup(st, inode).1, held, g, Lookup(st, inode).0, tidy);
  }

  lemma LookupAtKeeps(st: State, held: multiset<nat>, inode: nat, name: Name, tidy: bool)
    requires Good(st, held, tidy)
    ensures Good(LookupAt(st, inode, name).1, Held(held, LookupAt(st, inode, name).0), tidy)
  {
    if Live(st, inode) {
      Opening(st, held, inode, tidy);
      var st1 := AddLookup(st, inode);
      var node := At(st1, inode);
      if name == DOT {
      } else if node.content.Dir? && name == DOTDOT {
        LookupThenDrop(st1, held, node.parent, inode, tidy);
      } else if node.content.Dir? && name in node.content.files {
        LookupThenDrop(st1, held, node.content.files[name], inode, tidy);
      } else {
        ClosingFirst(st1, held, inode, Err(0), tidy);
      }
    }
  }

  lemma CreatedGood(st: State, held: multiset<nat>, parent: nat, name: Name, mode: u32, content: Content, tidy: bool)
    requires Good(st, held, tidy) && CanCreate(st, parent, name, content)
    ensures FreeInRange(st)
    ensures var (i, st') := Created(st, parent, name, mode, content);
            !Live(st, i) && Good(st', held + multiset{i}, tidy)
  {
    CreatedKeeps(st, held, parent, name, mode, content);
  }

  lemma CreateThenDrop(st: State, held: multiset<nat>, parent: nat, name: Name, mode: u32, content: Content, tidy: bool)
    requires Good(st, held + multiset{parent}, tidy) && CanCreate(st, parent, name, content)
    ensures FreeInRange(st)
    ensures var (i, st') := Created(st, parent, name, mode, content);
            Good(DropGuard(st', parent), held + multiset{i}, tidy) && !Live(st, i)
  {
    CreatedGood(st, held + multiset{parent}, parent, name, mode, content, tidy);
    var (i, st') := Created(st, parent, name, mode, content);
    assert held + multiset{parent} + multiset{i} == Held(held + multiset{parent}, Ok(i));
    ClosingFirst(st', held, parent, Ok(i), tidy);
  }

  lemma DoCreateKeeps(st: State, held: multiset<nat>, parent: nat, name: Name, mode: u32, content: Content, tidy: bool)
    requires Good(st, held, tidy) && (content == File || content == Dir(map[])) && FreeInRange(st)
    ensures var (r, st') := DoCreate(st, parent, name, mode, content); Good(st', Held(held, r), tidy)
  {
    if Live(st, parent) {
      Opening(st, held, parent, tidy);
      var st1 := AddLookup(st, parent);
      if At(st1, parent).content.Dir? && name !in FilesOf(st1, parent) {
        CreateThenDrop(st1, held, parent, name, mode, content, tidy);
      } else {
        ClosingFirst(st1, held, parent, Err(0), tidy);
      }
    }
  }

  lemma UnlinkedGood(st: State, held: multiset<nat>, parent: nat, name: Name, tidy: bool)
    requires Good(st, held, tidy) && CanUnlink(st, parent, name) && FilesOf(st, parent)[name] in held
    ensures Live(st, FilesOf(st, parent)[name]) && Good(Unlinked(st, parent, name), held, tidy)
  {
    UnlinkedKeeps(st, held, parent, name);
  }

  /** All the ways an existing entry's unlink ends. */
  lemma UnlinkNamedKeeps(st: State, held: multiset<nat>, parent: nat, name: Name, isRmdir: bool, tidy: bool)
    requires Good(st, held + multiset{parent}, tidy) && CanUnlink(st, parent, name)
    ensures Good(UnlinkNamed(st, parent, name, isRmdir).1, held, tidy)
  {
    var c := FilesOf(st, parent)[name];
    assert GoodChild(st, parent, c);
    Opening(st, held + multiset{parent}, c, tidy);
    var st1 := AddLookup(st, c);
    assert FilesOf(st1, parent) == FilesOf(st, parent);
    UnlinkedGood(st1, held + multiset{parent} + multiset{c}, parent, name, tidy);
    TwoGuardsKeep(st1, held, c, parent, tidy);
    TwoGuardsKeep(Unlinked(st1, parent, name), held, c, parent, tidy);
  }

  lemma UnlinkKeeps(st: State, held: multiset<nat>, parent: nat, name: Name, isRmdir: bool, tidy: bool)
    requires Good(st, held, tidy)
    ensures Good(Unlink(st, parent, name, isRmdir).1, held, tidy)
  {
    if Live(st, parent) {
      Opening(st, held, parent, tidy);
      var st1 := AddLookup(st, parent);
      if At(st1, parent).content.Dir? && name in FilesOf(st1, parent) {
        UnlinkNamedKeeps(st1, held, parent, name, isRmdir, tidy);
      } else {
        ClosingFirst(st1, held, parent, Err(0), tidy);
      }
    }
  }

  lemma TwoGuardsKeep(st: State, held: multiset<nat>, a: nat, b: nat, tidy: bool)
    requires Good(st, held + multiset{b} + multiset{a}, tidy)
    ensures Good(DropGuard(DropGuard(st, a), b), held, tidy)
  {
    Closing(st, held + multiset{b} + multiset{a}, a, tidy);
    assert held + multiset{b} + multiset{a} - multiset{a} == held + multiset{b};
    ClosingFirst(DropGuard(st, a), held, b, Err(0), tidy);
  }

  lemma ForgetKeeps(st: State, held: multiset<nat>, i: nat, n: nat, tidy: bool)
    requires Good(st, held, tidy) && Live(st, i) && 1 <= n <= held[i]
    ensures Good(ForgetEntry(st, i, n), held[i := held[i] - n], tidy && n == 1)
  {
    ForgetExactly(st, held, i, n);
    if tidy && n == 1 { ForgetLeaksExactly(st, i, n); }
  }

  ghost predicate Tidy(w: World, tidy: bool)
  {
    Good(w.st, w.guards + w.handed, tidy)
  }

  lemma OpenedKeeps(w: World, r: Result<nat>, st: State, tidy: bool)
    requires Good(st, Held(w.guards + w.handed, r), tidy)
    ensures Tidy(Opened(w, r, st), tidy)
  {
    var w' := Opened(w, r, st);
    assert w'.guards + w'.handed == Held(w.guards + w.handed, r);
  }

  lemma ForgetStep(w: World, inode: nat, n: nat, tidy: bool)
    requires Tidy(w, tidy) && Live(w.st, inode) && 1 <= n <= w.handed[inode]
    ensures Good(ForgetEntry(w.st, inode, n), w.guards + w.handed[inode := w.handed[inode] - n], tidy && n == 1)
  {
    var held := w.guards + w.handed;
    ForgetKeeps(w.st, held, inode, n, tidy);
    assert held[inode := held[inode] - n] == w.guards + w.handed[inode := w.handed[inode] - n];
  }

  lemma GuardStep(w: World, i: nat, tidy: bool)
    requires Tidy(w, tidy) && i in w.guards
    ensures Live(w.st, i) && Good(DropGuard(w.st, i), w.guards - multiset{i} + w.handed, tidy)
    ensures Good(w.st, w.guards - multiset{i} + (w.handed + multiset{i}), tidy)
    ensures Good(AddLookup(w.st, i), w.guards + (w.handed + multiset{i}), tidy)
  {
    var held := w.guards + w.handed;
    Closing(w.st, held, i, tidy);
    Opening(w.st, held, i, tidy);
    assert held - multiset{i} == w.guards - multiset{i} + w.handed;
    assert held == w.guards - multiset{i} + (w.handed + multiset{i});
    assert held + multiset{i} == w.guards + (w.handed + multiset{i});
  }

  lemma OpeningStep(w: World, op: Op, tidy: bool)
    requires Tidy(w, tidy) && Sound(w) && Legal(w, op) && (op.LookupOp? || op.LookupAtOp? || op.CreateOp?)
    ensures Tidy(Step(w, op), tidy)
  {
    var held := w.guards + w.handed;
    match op {
      case LookupOp(inode) =>
        LookupKeeps(w.st, held, inode, tidy);
        OpenedKeeps(w, Lookup(w.st, inode).0, Lookup(w.st, inode).1, tidy);
      case LookupAtOp(inode, name) =>
        LookupAtKeeps(w.st, held, inode, name, tidy);
        OpenedKeeps(w, LookupAt(w.st, inode, name).0, LookupAt(w.st, inode, name).1, tidy);
      case CreateOp(parent, name, mode, content) =>
        AllocateFindsEmptySlot(w.st);
        DoCreateKeeps(w.st, held, parent, name, mode, content, tidy);
        var (r, st) := DoCreate(w.st, parent, name, mode, content);
        OpenedKeeps(w, r, st, tidy);
    }
  }

  lemma StepKeepsGood(w: World, op: Op, tidy: bool)
    requires Tidy(w, tidy) && Sound(w) && Legal(w, op)
    ensures Tidy(Step(w, op), tidy && ForgetsSingly(op))
  {
    match op {
      case UnlinkOp(parent, name, isRmdir) => UnlinkKeeps(w.st, w.guards + w.handed, parent, name, isRmdir, tidy);
      case ForgetOp(inode, n) => if Live(w.st, inode) { ForgetStep(w, inode, n, tidy); }
      case DropOp(inode) => GuardStep(w, inode, tidy);
      case LeakOp(inode) => GuardStep(w, inode, tidy);
      case IncrementOp(inode) => GuardStep(w, inode, tidy);
      case _ => OpeningStep(w, op, tidy);
    }
  }

  /** One operation. */
  lemma StepKeeps(w: World, op: Op)
    requires Sound(w) && Legal(w, op)
    ensures Sound(Step(w, op))
    ensures NoLeak(w.st) && ForgetsSingly(op) ==> NoLeak(Step(w, op).st)
  {
    StepKeepsGood(w, op, false);
    if NoLeak(w.st) { StepKeepsGood(w, op, true); }
  }

  /** Where every run starts: the kernel holds one count on the root. */
  ghost function Start(): World
  {
    World(Initial(), multiset{}, multiset{FUSE_ROOT_ID})
  }

  lemma StartIsSound()
    ensures Sound(Start()) && NoLeak(Start().st)
  {
    var st := Initial();
    assert forall d :: FilesOf(st, d) == map[];
    assert Ranked(st, (k: nat) => 0);
  }

  /** Every operation is legal when its turn comes. */
  ghost predicate LegalRun(w: World, ops: seq<Op>)
    requires Sound(w)
    decreases |ops|
  {
    ops != [] ==> Legal(w, ops[0]) && (StepKeeps(w, ops[0]); LegalRun(Step(w, ops[0]), ops[1..]))
  }

  ghost function Run(w: World, ops: seq<Op>): World
    requires Sound(w) && LegalRun(w, ops)
    decreases |ops|
  {
    if ops == [] then w else (StepKeeps(w, ops[0]); Run(Step(w, ops[0]), ops[1..]))
  }

  /** Every reachable table is sound: the forest is intact, every count is accounted for, no slot of a
      held entry is empty, the root is there, and the free list is exact. If counts are forgotten one
      at a time nothing leaks. */
  lemma {:induction false} RunKeeps(w: World, ops: seq<Op>)
    requires Sound(w) && LegalRun(w, ops)
    ensures Sound(Run(w, ops))
    ensures forall i: nat :: i in Run(w, ops).guards + Run(w, ops).handed ==> Live(Run(w, ops).st, i)
    ensures Live(Run(w, ops).st, FUSE_ROOT_ID)
    ensures NoLeak(w.st) && (forall k :: 0 <= k < |ops| ==> ForgetsSingly(ops[k])) ==> NoLeak(Run(w, ops).st)
    decreases |ops|
  {
    if ops != [] {
      StepKeeps(w, ops[0]);
      RunKeeps(Step(w, ops[0]), ops[1..]);
    }
  }
}
