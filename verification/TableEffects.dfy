/** What single operations of the inode table do and undo. */
module TableEffects {
  import opened Bytes
  import opened Protocol
  import opened Inodes
  import opened Forest
  import opened Table
  import opened TableRuns

  /** Looking an entry up and dropping the guard again changes nothing, unless it had leaked. */
  lemma LookAndDrop(st: State, i: nat)
    requires Live(st, i) && (At(st, i).lookups > 0 || At(st, i).links > 0)
    ensures DropGuard(AddLookup(st, i), i) == st
  {
    var st1 := AddLookup(st, i);
    assert Put(st1, i, At(st1, i).(lookups := At(st, i).lookups)) == st;
  }

  // ----- looking up

  /** `Lookup` in a sound table without leaks: a guard on the entry, or why there is none. */
  lemma LookupFinds(st: State, inode: nat)
    ensures var (r, st') := Lookup(st, inode);
            if inode >= |st.entries| then r == Err(EIO) && st' == st
            else if st.entries[inode].None? then r == Err(ENOENT) && st' == st
            else r == Ok(inode) && OneMoreLook(st, st', inode)
  {
  }

  /** `forget` fails for the same reasons, and then changes nothing. */
  lemma ForgetFinds(st: State, inode: nat, n: nat)
    ensures var (r, st') := Forget(st, inode, n);
            if inode >= |st.entries| then r == Err(EIO) && st' == st
            else if st.entries[inode].None? then r == Err(ENOENT) && st' == st
            else r == Ok(())
  {
  }

  /** The tables differ in one count only. */
  predicate OneMoreLook(st: State, st': State, i: nat)
  {
    && Live(st, i) && st'.free == st.free
    && st'.entries == st.entries[i := Some(At(st, i).(lookups := At(st, i).lookups + 1))]
  }

  /** The entry a name leads to from `inode`; `.` from anything, the others from directories only. */
  lemma LookupAtFinds(st: State, inode: nat, name: Name)
    requires GoodNames(st) && NoLeak(st)
    ensures var (r, st') := LookupAt(st, inode, name);
            && (if inode >= |st.entries| then r == Err(EIO)
                else if st.entries[inode].None? then r == Err(ENOENT)
                else if name == [46] then r == Ok(inode)
                else if At(st, inode).content.File? then r == Err(ENOTDIR)
                else if name == [46, 46] then
                  var p := At(st, inode).parent;
                  r == if p >= |st.entries| then Err(EIO) else if st.entries[p].None? then Err(ENOENT) else Ok(p)
                else if name in At(st, inode).content.files then r == Ok(At(st, inode).content.files[name])
                else r == Err(ENOENT))
            && (if r.Ok? then OneMoreLook(st, st', r.value) else st' == st)
  {
    if Live(st, inode) {
      LookAndDrop(st, inode);
      if name != DOT && At(st, inode).content.Dir? {
        if name == DOTDOT {
          NextGuard(st, inode, At(st, inode).parent);
        } else if name in FilesOf(st, inode) {
          assert GoodChild(st, inode, FilesOf(st, inode)[name]);
          NextGuard(st, inode, FilesOf(st, inode)[name]);
        }
      }
    }
  }

  /** Going on from one entry to another leaves only the guard on the other. */
  lemma NextGuard(st: State, i: nat, next: nat)
    requires Live(st, i) && NoLeak(st)
    ensures Lookup(AddLookup(st, i), next).0 == Lookup(st, next).0
    ensures DropGuard(Lookup(AddLookup(st, i), next).1, i) == Lookup(st, next).1
  {
    if Live(st, next) {
      var looked := AddLookup(st, next);
      LookAndDrop(looked, i);
      assert AddLookup(AddLookup(st, i), next).entries == AddLookup(looked, i).entries;
    } else {
      LookAndDrop(st, i);
    }
  }

  // ----- unlinking

  /** The name leads to a file that is to be unlinked, or to an empty directory that is to be removed. */
  predicate CanGo(st: State, parent: nat, name: Name, isRmdir: bool)
  {
    && name in FilesOf(st, parent) && Live(st, FilesOf(st, parent)[name])
    && At(st, FilesOf(st, parent)[name]).content == if isRmdir then Dir(map[]) else File
  }

  /** Exactly which unlinks fail, and how. One that fails leaves the table exactly as it was, the name it
      had taken away included. */
  lemma FailedUnlinkChangesNothing(st: State, held: multiset<nat>, parent: nat, name: Name, isRmdir: bool)
    requires Inv(st, held) && NoLeak(st)
    ensures var r := Unlink(st, parent, name, isRmdir).0;
            if parent >= |st.entries| then r == Err(EIO)
            else if st.entries[parent].None? then r == Err(ENOENT)
            else if At(st, parent).content.File? then r == Err(ENOTDIR)
            else if name !in At(st, parent).content.files then r == Err(ENOENT)
            else
              && Live(st, At(st, parent).content.files[name])
              && var content := At(st, At(st, parent).content.files[name]).content;
                 && (r == Ok(()) <==> (content.File? && !isRmdir) || (content == Dir(map[]) && isRmdir))
                 && (r == Err(EISDIR) <==> content.Dir? && !isRmdir)
                 && (r == Err(ENOTEMPTY) <==> content.Dir? && content.files != map[] && isRmdir)
                 && (r == Err(ENOTDIR) <==> content.File? && isRmdir)
    ensures Unlink(st, parent, name, isRmdir).0.Ok? <==> CanGo(st, parent, name, isRmdir)
    ensures Unlink(st, parent, name, isRmdir).0.Err? ==> Unlink(st, parent, name, isRmdir).1 == st
  {
    if Live(st, parent) {
      LookAndDrop(st, parent);
      if name in FilesOf(st, parent) { NamedUnlink(st, parent, name, isRmdir); }
    }
  }

  lemma NamedUnlink(st: State, parent: nat, name: Name, isRmdir: bool)
    requires GoodNames(st) && Acyclic(st) && NoLeak(st) && CanUnlink(st, parent, name)
    ensures var (r, st') := Unlink(st, parent, name, isRmdir);
            && GoodChild(st, parent, FilesOf(st, parent)[name])
            && var content := At(st, FilesOf(st, parent)[name]).content;
               && r == (if content.File? then if isRmdir then Err(ENOTDIR) else Ok(())
                        else if !isRmdir then Err(EISDIR)
                        else if content.files != map[] then Err(ENOTEMPTY) else Ok(()))
               && (r.Err? ==> st' == st)
  {
    var c, st1 := FilesOf(st, parent)[name], AddLookup(st, parent);
    assert GoodChild(st, parent, c);
    SelfNotNamed(st, parent);
    assert c != parent;
    assert FilesOf(st1, parent) == FilesOf(st, parent) && At(st1, c) == At(st, c);
    LookAndDrop(st, parent);
    LookAndDrop(st1, c);
  }

  /** An entry whose last link went while the directory was empty. */
  lemma DropUnlinked(st: State, c: nat)
    requires Live(st, c) && At(st, c).links == 0 && At(st, c).lookups > 0 && FilesOf(st, c) == map[]
    ensures DropGuard(st, c) ==
              if At(st, c).lookups > 1 then Put(st, c, At(st, c).(lookups := At(st, c).lookups - 1))
              else State(st.entries[c := None], st.free + [c])
  {
    if At(st, c).lookups == 1 {
      var st1 := Put(st, c, At(st, c).(lookups := 0));
      assert FilesOf(st1, c) == map[];
      assert OnDrop(st1, c) == st1;
      assert Delete(st1, c) == State(st1.entries[c := None], st1.free + [c]);
      assert ForgetEntry(st, c, 1) == Delete(st1, c);
      assert st1.entries[c := None] == st.entries[c := None];
    }
  }

  /** The table a successful unlink leaves: the name is gone; the entry goes too unless somebody still
      looks at it. */
  function AfterUnlink(st: State, parent: nat, name: Name): State
    requires CanUnlink(st, parent, name) && Live(st, FilesOf(st, parent)[name])
  {
    var c := FilesOf(st, parent)[name];
    var st1 := WithFiles(st, parent, FilesOf(st, parent) - {name});
    if At(st, c).lookups > 0 then Put(st1, c, At(st1, c).(links := 0))
    else State(st1.entries[c := None], st1.free + [c])
  }

  lemma UnlinkDoesExactly(st: State, parent: nat, name: Name, isRmdir: bool)
    requires Structure(st, {}) && Acyclic(st) && NoLeak(st) && CanGo(st, parent, name, isRmdir)
    ensures Unlink(st, parent, name, isRmdir) == (Ok(()), AfterUnlink(st, parent, name))
  {
    var c := FilesOf(st, parent)[name];
    assert GoodChild(st, parent, c) && Linked(st, c);
    SelfNotNamed(st, parent);
    var st1 := AddLookup(st, parent);
    assert FilesOf(st1, parent) == FilesOf(st, parent);
    UnlinkedThenDropped(st, parent, name);
    LookAndDrop(AfterUnlink(st, parent, name), parent);
  }

  /** Dropping the guard on the entry finishes it off, unless it is looked at otherwise. */
  lemma UnlinkedThenDropped(st: State, parent: nat, name: Name)
    requires Structure(st, {}) && NoLeak(st) && CanUnlink(st, parent, name) && FilesOf(st, parent)[name] != parent
    requires Live(st, FilesOf(st, parent)[name]) && FilesOf(st, FilesOf(st, parent)[name]) == map[]
    ensures var c := FilesOf(st, parent)[name];
            var st2 := AddLookup(AddLookup(st, parent), c);
            && CanUnlink(st2, parent, name) && Live(st2, FilesOf(st2, parent)[name])
            && Live(AfterUnlink(st, parent, name), parent)
            && At(AfterUnlink(st, parent, name), parent).lookups == At(st, parent).lookups
            && At(AfterUnlink(st, parent, name), parent).links == At(st, parent).links
            && DropGuard(Unlinked(st2, parent, name), c) == AddLookup(AfterUnlink(st, parent, name), parent)
  {
    var c := FilesOf(st, parent)[name];
    assert GoodChild(st, parent, c) && Linked(st, c);
    var st2 := AddLookup(AddLookup(st, parent), c);
    var st3 := Unlinked(st2, parent, name);
    assert FilesOf(st2, parent) == FilesOf(st, parent);
    assert At(st3, c) == At(st, c).(lookups := At(st, c).lookups + 1, links := 0);
    assert FilesOf(st3, c) == map[];
    DropUnlinked(st3, c);
    var after := AfterUnlink(st, parent, name);
    assert DropGuard(st3, c).entries == AddLookup(after, parent).entries;
  }

  /** Creating an entry and dropping the guard, then unlinking it, brings the old table back; only a
      slot that had to be added stays, and is free. */
  lemma CreateUnlinkUndoes(st: State, held: multiset<nat>, parent: nat, name: Name, mode: u32, content: Content)
    requires Inv(st, held) && NoLeak(st) && CanCreate(st, parent, name, content)
    ensures FreeInRange(st)
    ensures var (r, st1) := DoCreate(st, parent, name, mode, content);
            && r.Ok? && !Live(st, r.value) && Live(st1, r.value)
                && FilesOf(st1, parent) == FilesOf(st, parent)[name := r.value]
            && var (u, st2) := Unlink(DropGuard(st1, r.value), parent, name, content.Dir?);
               && u == Ok(())
               && st2 == if st.free != [] then st else State(st.entries + [None], [r.value])
  {
    AllocateFindsEmptySlot(st);
    CreatedKeeps(st, held, parent, name, mode, content);
    CreatedShape(st, parent, name, mode, content);
    DoCreateDoesExactly(st, held, parent, name, mode, content);
    var (i, st1) := Created(st, parent, name, mode, content);
    DropGuardKeeps(st1, held + multiset{i}, i);
    var st2 := DropGuard(st1, i);
    assert held + multiset{i} - multiset{i} == held;
    assert st2 == Put(st1, i, At(st1, i).(lookups := 0));
    assert FilesOf(st2, parent) == FilesOf(st1, parent);
    UnlinkDoesExactly(st2, parent, name, content.Dir?);
    CreateUndone(st, parent, name, mode, content);
  }

  /** Looking at the directory first only adds that look. */
  lemma CreatedWhileLooking(st: State, parent: nat, name: Name, mode: u32, content: Content)
    requires Roots(st) && GoodNames(st) && FreeExact(st) && FreeInRange(st) && CanCreate(st, parent, name, content)
    ensures FreeInRange(AddLookup(st, parent))
    ensures Live(Created(st, parent, name, mode, content).1, parent)
    ensures Created(AddLookup(st, parent), parent, name, mode, content) ==
              (Created(st, parent, name, mode, content).0,
                  AddLookup(Created(st, parent, name, mode, content).1, parent))
  {
    AllocateFindsEmptySlot(st);
    CreatedShape(st, parent, name, mode, content);
    var looked := AddLookup(st, parent);
    var (i, st1) := Created(st, parent, name, mode, content);
    var (j, st2) := Created(looked, parent, name, mode, content);
    assert i == j;
    assert st2.entries == AddLookup(st1, parent).entries;
  }

  /** Creation adds the new entry with one guard, names it, and changes nothing else. */
  lemma DoCreateDoesExactly(st: State, held: multiset<nat>, parent: nat, name: Name, mode: u32, content: Content)
    requires Inv(st, held) && NoLeak(st) && CanCreate(st, parent, name, content) && FreeInRange(st)
    ensures var (i, st1) := Created(st, parent, name, mode, content);
            DoCreate(st, parent, name, mode, content) == (Ok(i), st1)
  {
    CreatedShape(st, parent, name, mode, content);
    CreatedWhileLooking(st, parent, name, mode, content);
    var (i, st1) := Created(st, parent, name, mode, content);
    assert At(st1, parent).lookups == At(st, parent).lookups && At(st1, parent).links == At(st, parent).links;
    LookAndDrop(st1, parent);
  }

  /** Entry `i` is new, with one link, one look, the name in its parent, and this mode and content; nothing
      else is different. */
  ghost predicate AddsEntry(st: State, st': State, parent: nat, name: Name, i: nat, mode: u32, content: Content)
  {
    && !Live(st, i) && i >= 2 && Live(st', i) && At(st', i) == Entry(i, parent, 1, 1, mode, content)
    && Live(st, parent) && At(st, parent).content.Dir? && Live(st', parent)
    && At(st', parent) == At(st, parent).(content := Dir(At(st, parent).content.files[name := i]))
    && (forall k :: Live(st', k) <==> Live(st, k) || k == i)
    && (forall k :: Live(st, k) && k != parent ==> At(st', k) == At(st, k))
  }

  /** Exactly which creations fail, and how; what the others add. */
  lemma CreateExactly(st: State, held: multiset<nat>, parent: nat, name: Name, mode: u32, content: Content)
    requires Inv(st, held) && NoLeak(st) && (content == File || content == Dir(map[]))
    ensures FreeInRange(st)
    ensures var (r, st') := DoCreate(st, parent, name, mode, content);
            && (if parent >= |st.entries| then r == Err(EIO)
                else if st.entries[parent].None? then r == Err(ENOENT)
                else if At(st, parent).content.File? then r == Err(ENOTDIR)
                else if name in At(st, parent).content.files then r == Err(EEXIST)
                else r.Ok? && AddsEntry(st, st', parent, name, r.value, mode, content))
            && (r.Err? ==> st' == st)
  {
    AllocateFindsEmptySlot(st);
    if Live(st, parent) {
      LookAndDrop(st, parent);
      assert FilesOf(AddLookup(st, parent), parent) == FilesOf(st, parent);
      if CanCreate(st, parent, name, content) {
        DoCreateDoesExactly(st, held, parent, name, mode, content);
        CreatedShape(st, parent, name, mode, content);
      }
    }
  }

  // ----- the type of an entry

  /** The type bit of directories is set, and the other bits are as they were. */
  lemma DirModeBits(mode: u32)
    ensures AsDir(mode) / 0x4000 % 2 == 1
    ensures AsDir(mode) % 0x4000 == mode % 0x4000 && AsDir(mode) / 0x8000 == mode / 0x8000
  {
  }

  /** Likewise for files. */
  lemma FileModeBits(mode: u32)
    ensures AsFile(mode) / 0x8000 % 2 == 1
    ensures AsFile(mode) % 0x8000 == mode % 0x8000 && AsFile(mode) / 0x10000 == mode / 0x10000
  {
  }

  /** A new file system has the root and nothing else: an empty directory with the permissions rwxr-xr-x,
      its own parent, linked once and looked at once. */
  lemma RootAlone(i: nat)
    ensures Live(Initial(), i) <==> i == 1
    ensures var e := At(Initial(), 1);
            && e.inode == e.parent == 1 && e.lookups == e.links == 1 && e.content == Dir(map[])
            && e.mode / 0x1000 % 16 == 4 && e.mode % 0x1000 == 7 * 64 + 5 * 8 + 5
  {
  }

  lemma CreateUndone(st: State, parent: nat, name: Name, mode: u32, content: Content)
    requires Roots(st) && GoodNames(st) && FreeExact(st) && FreeInRange(st) && CanCreate(st, parent, name, content)
    ensures var (i, st1) := Created(st, parent, name, mode, content);
            && Live(st1, i)
            && var st2 := Put(st1, i, At(st1, i).(lookups := 0));
               && CanUnlink(st2, parent, name) && FilesOf(st2, parent)[name] == i
               && AfterUnlink(st2, parent, name) == if st.free != [] then st else State(st.entries + [None], [i])
  {
    AllocateFindsEmptySlot(st);
    CreatedShape(st, parent, name, mode, content);
    var (i, st1) := Created(st, parent, name, mode, content);
    var st2 := Put(st1, i, At(st1, i).(lookups := 0));
    var after := AfterUnlink(st2, parent, name);
    var files := FilesOf(st, parent);
    assert files[name := i] - {name} == files;
    assert At(after, parent) == At(st, parent);
    assert after.entries == if st.free != [] then st.entries else st.entries + [None];
    if st.free != [] {
      assert after.free == st.free[..|st.free| - 1] + [i] == st.free;
    }
  }
}
