/** The file system object of examples/tmpfs/fs.rs. Each operation runs as one atomic step. */
module FsModel {
  import opened Bytes
  import opened Protocol
  import opened BTree
  import opened Inodes
  import Forest
  import opened TableRuns

  /** A child that is alive loses its link, and the others follow. */
  lemma DropLinksTurn(st: State, cs: seq<nat>)
    requires cs != [] && Live(st, cs[0])
    ensures var e := At(st, cs[0]).(lookups := At(st, cs[0]).lookups + 1, links := Sub(At(st, cs[0]).links, 1));
            Inodes.DropLinks(st, cs) == Inodes.DropLinks(Inodes.ForgetEntry(Put(st, cs[0], e), cs[0], 1), cs[1..])
  {
  }

  class Fs {
    var entries: seq<Option<Entry>>
    var freeInodes: seq<nat>
    /** The `InodeLookup`s alive, by inode, and the counts leaked or added for the kernel. */
    ghost var guards: multiset<nat>
    ghost var handed: multiset<nat>

    ghost function Table(): State
      reads this
    {
      State(entries, freeInodes)
    }

    ghost function World(): World
      reads this
    {
      TableRuns.World(Table(), guards, handed)
    }

    ghost predicate Valid()
      reads this
    {
      Sound(World())
    }

    constructor ()
      ensures World() == Start() && Valid()
    {
      entries := [None, Some(Entry(FUSE_ROOT_ID, FUSE_ROOT_ID, 1, 1, S_IFDIR + 0x1ED, Dir(map[])))];
      freeInodes := [];
      guards := multiset{};
      handed := multiset{FUSE_ROOT_ID};
      new;
      StartIsSound();
    }

    // ----- counts

    /** `forget_entry`. */
    method ForgetEntry(i: nat, n: nat)
      requires Live(Table(), i)
      modifies this`entries, this`freeInodes
      ensures Table() == Inodes.ForgetEntry(old(Table()), i, n)
      decreases Weight(Table()), 2, 0
    {
      var entry := entries[i].value;
      ghost var entry' := entry.(lookups := Sub(entry.lookups, n));
      PutKeepsWeight(Table(), i, entry');
      var before := entry.lookups;
      entries := entries[i := Some(entry.(lookups := Sub(entry.lookups, n)))];
      if before > 1 { return; }
      if entry.links != 0 { return; }
      OnDrop(i);
      entries := entries[i := None];
      freeInodes := freeInodes + [i];
    }

    /** `FsEntry::on_drop` and `Dir::on_drop`. */
    method OnDrop(i: nat)
      requires Live(Table(), i)
      modifies this`entries, this`freeInodes
      ensures Table() == Inodes.OnDrop(old(Table()), i)
      decreases Weight(Table()), 1
    {
      var entry := entries[i].value;
      if entry.content.File? { return; }
      var files := entry.content.files;
      ghost var was := Table();
      entries := entries[i := Some(entry.(content := Dir(map[])))];
      if files != map[] {
        EmptyingLowersWeight(was, i, entry.(content := Dir(map[])));
      } else {
        assert entries == was.entries;
        return;
      }
      DropLinks(files);
    }

    /** The loop over the children of a directory that is going away. */
    method DropLinks(files: map<Name, nat>)
      modifies this`entries, this`freeInodes
      ensures Table() == Inodes.DropLinks(old(Table()), Values(files))
      decreases Weight(Table()), 3
    {
      var order := KeysInOrder(files.Keys);
      ghost var rest := Values(files);
      ghost var all, bound := Inodes.DropLinks(Table(), rest), Weight(Table());
      for k := 0 to |order|
        invariant rest == Values(files)[k..]
        invariant all == Inodes.DropLinks(Table(), rest)
        invariant Weight(Table()) <= bound
      {
        var c := files[order[k]];
        assert rest[0] == Values(files)[k] == c;
        if c >= |entries| || entries[c].None? { return; }
        DropLinksTurn(Table(), rest);
        DropLink(c);
        rest := rest[1..];
      }
    }

    /** One turn of that loop: look up, drop a link, drop the guard. */
    method DropLink(c: nat)
      requires Live(Table(), c)
      modifies this`entries, this`freeInodes
      ensures Table() == var e := At(old(Table()), c);
                         Inodes.ForgetEntry(Put(old(Table()), c,
                             e.(lookups := e.lookups + 1, links := Sub(e.links, 1))), c, 1)
      ensures Weight(Table()) <= Weight(old(Table()))
      decreases Weight(Table()), 2, 1
    {
      var child := entries[c].value;
      ghost var child' := child.(lookups := child.lookups + 1, links := Sub(child.links, 1));
      PutKeepsWeight(Table(), c, child');
      entries := entries[c := Some(child.(lookups := child.lookups + 1, links := Sub(child.links, 1)))];
      ForgetEntry(c, 1);
    }

    // ----- guards

    /** `lookup` and `InodeLookup::new`; Ok(i) stands for a guard on entry i. */
    method OpenGuard(inode: nat) returns (r: Result<nat>)
      modifies this`entries, this`guards
      ensures (r, Table()) == Inodes.Lookup(old(Table()), inode)
      ensures guards == Held(old(guards), r)
    {
      if inode >= |entries| { return Err(EIO); }
      if entries[inode].None? { return Err(ENOENT); }
      var entry := entries[inode].value;
      entries := entries[inode := Some(entry.(lookups := entry.lookups + 1))];
      guards := guards + multiset{inode};
      return Ok(inode);
    }

    /** `InodeLookup::drop`. */
    method CloseGuard(i: nat)
      modifies this`entries, this`freeInodes, this`guards
      ensures Table() == DropGuard(old(Table()), i) && guards == old(guards) - multiset{i}
    {
      guards := guards - multiset{i};
      if i < |entries| && entries[i].Some? {
        ForgetEntry(i, 1);
      }
    }

    method Lookup(inode: nat) returns (r: Result<nat>)
      requires Valid()
      modifies this
      ensures Valid() && World() == Step(old(World()), LookupOp(inode))
      ensures (r, Table()) == Inodes.Lookup(old(Table()), inode)
      ensures guards == Held(old(guards), r) && handed == old(handed)
    {
      StepKeeps(World(), LookupOp(inode));
      r := OpenGuard(inode);
    }

    /** The end of a guard's life. */
    method Drop(i: nat)
      requires Valid() && i in guards
      modifies this
      ensures Valid() && World() == Step(old(World()), DropOp(i))
      ensures Table() == DropGuard(old(Table()), i)
      ensures guards == old(guards) - multiset{i} && handed == old(handed)
    {
      StepKeeps(World(), DropOp(i));
      CloseGuard(i);
    }

    /** `leak` turns a guard into a count the kernel owes back. */
    method Leak(i: nat)
      requires Valid() && i in guards
      modifies this
      ensures Valid() && World() == Step(old(World()), LeakOp(i))
    {
      StepKeeps(World(), LeakOp(i));
      guards := guards - multiset{i};
      handed := handed + multiset{i};
    }

    method IncrementLookup(i: nat)
      requires Valid() && i in guards
      modifies this
      ensures Valid() && World() == Step(old(World()), IncrementOp(i))
    {
      StepKeeps(World(), IncrementOp(i));
      assert i in guards + handed;
      var entry := entries[i].value;
      entries := entries[i := Some(entry.(lookups := entry.lookups + 1))];
      handed := handed + multiset{i};
    }

    // ----- operations

    /** Any inode and any count; what the kernel owes is what `Legal` says. */
    method Forget(inode: nat, n: nat) returns (r: Result<()>)
      modifies this
      ensures (r, Table()) == Inodes.Forget(old(Table()), inode, n)
      ensures old(Valid()) && Legal(old(World()), ForgetOp(inode, n)) ==>
                Valid() && World() == Step(old(World()), ForgetOp(inode, n))
    {
      if Valid() && Legal(World(), ForgetOp(inode, n)) { StepKeeps(World(), ForgetOp(inode, n)); }
      r := ReturnCounts(inode, n);
      if r.Ok? && n <= handed[inode] { handed := handed[inode := handed[inode] - n]; }
    }

    /** The body of `forget`, in any state. */
    method ReturnCounts(inode: nat, n: nat) returns (r: Result<()>)
      modifies this`entries, this`freeInodes
      ensures (r, Table()) == Inodes.Forget(old(Table()), inode, n)
    {
      if inode >= |entries| { return Err(EIO); }
      if entries[inode].None? { return Err(ENOENT); }
      ForgetEntry(inode, n);
      return Ok(());
    }

    method LookupAt(inode: nat, name: Name) returns (r: Result<nat>)
      requires Valid()
      modifies this
      ensures Valid() && World() == Step(old(World()), LookupAtOp(inode, name))
      ensures r == Inodes.LookupAt(old(Table()), inode, name).0
    {
      StepKeeps(World(), LookupAtOp(inode, name));
      r := FindAt(inode, name);
    }

    /** The body of `lookup_at`, in any state. */
    method FindAt(inode: nat, name: Name) returns (r: Result<nat>)
      modifies this`entries, this`freeInodes, this`guards
      ensures (r, Table()) == Inodes.LookupAt(old(Table()), inode, name)
      ensures guards == Held(old(guards), r)
    {
      ghost var start := guards;
      var node := OpenGuard(inode);
      if node.Err? || name == DOT { return node; }
      var entry := entries[inode].value;
      if entry.content.File? {
        r := Err(ENOTDIR);
      } else if name == DOTDOT {
        r := OpenGuard(entry.parent);
      } else if name in entry.content.files {
        r := OpenGuard(entry.content.files[name]);
      } else {
        r := Err(ENOENT);
      }
      ghost var open := guards;
      assert open - multiset{inode} == Held(start, r);
      CloseGuard(inode);
    }

    method Mkdir(parent: nat, name: Name, mode: u32) returns (r: Result<nat>)
      requires Valid()
      modifies this
      ensures Valid() && World() == Step(old(World()), CreateOp(parent, name, AsDir(mode), Dir(map[])))
      ensures FreeInRange(old(Table())) && r == Inodes.DoCreate(old(Table()), parent, name, AsDir(mode), Dir(map[])).0
    {
      r := DoCreate(parent, name, AsDir(mode), Dir(map[]));
    }

    method Create(parent: nat, name: Name, mode: u32) returns (r: Result<nat>)
      requires Valid()
      modifies this
      ensures Valid() && World() == Step(old(World()), CreateOp(parent, name, AsFile(mode), File))
      ensures FreeInRange(old(Table())) && r == Inodes.DoCreate(old(Table()), parent, name, AsFile(mode), File).0
    {
      r := DoCreate(parent, name, AsFile(mode), File);
    }

    /** The mode already carries the type bits of the content. */
    method DoCreate(parent: nat, name: Name, mode: u32, content: Content) returns (r: Result<nat>)
      requires Valid() && (content == File || content == Dir(map[]))
      modifies this
      ensures Valid() && World() == Step(old(World()), CreateOp(parent, name, mode, content))
      ensures FreeInRange(old(Table())) && r == Inodes.DoCreate(old(Table()), parent, name, mode, content).0
    {
      StepKeeps(World(), CreateOp(parent, name, mode, content));
      AllocateFindsEmptySlot(Table());
      r := CreateIn(parent, name, mode, content);
    }

    /** The body of `do_create`. */
    method CreateIn(parent: nat, name: Name, mode: u32, content: Content) returns (r: Result<nat>)
      requires FreeInRange(Table())
      modifies this`entries, this`freeInodes, this`guards
      ensures (r, Table()) == Inodes.DoCreate(old(Table()), parent, name, mode, content)
      ensures guards == Held(old(guards), r)
    {
      ghost var start := guards;
      var dir := OpenGuard(parent);
      if dir.Err? { return dir; }
      var entry := entries[parent].value;
      if entry.content.File? {
        r := Err(ENOTDIR);
      } else if name in entry.content.files {
        r := Err(EEXIST);
      } else {
        r := StoreNew(parent, name, mode, content);
      }
      assert guards - multiset{parent} == Held(start, r);
      CloseGuard(parent);
    }

    /** Takes a number, stores the entry, names it in its parent and opens a guard on it. */
    method StoreNew(parent: nat, name: Name, mode: u32, content: Content) returns (r: Result<nat>)
      requires Live(Table(), parent) && At(Table(), parent).content.Dir? && FreeInRange(Table())
      modifies this`entries, this`freeInodes, this`guards
      ensures (r, Table()) == var (i, st) := Created(old(Table()), parent, name, mode, content); (Ok(i), st)
      ensures guards == Held(old(guards), r)
    {
      var inode;
      var dir := entries[parent].value;
      if freeInodes != [] {
        inode := freeInodes[|freeInodes| - 1];
        freeInodes := freeInodes[..|freeInodes| - 1];
      } else {
        inode := |entries|;
        entries := entries + [None];
      }
      entries := entries[inode := Some(Entry(inode, parent, 0, 1, mode, content))];
      entries := entries[parent := Some(dir.(content := Dir(dir.content.files[name := inode])))];
      r := OpenGuard(inode);
    }

    method Unlink(parent: nat, name: Name, isRmdir: bool) returns (r: Result<()>)
      requires Valid()
      modifies this
      ensures Valid() && World() == Step(old(World()), UnlinkOp(parent, name, isRmdir))
      ensures r == Inodes.Unlink(old(Table()), parent, name, isRmdir).0
    {
      StepKeeps(World(), UnlinkOp(parent, name, isRmdir));
      if Live(Table(), parent) { SelfNotNamed(Table(), parent); }
      r := UnlinkIn(parent, name, isRmdir);
    }

    /** The body of `unlink`. */
    method UnlinkIn(parent: nat, name: Name, isRmdir: bool) returns (r: Result<()>)
      requires Live(Table(), parent) ==> !Forest.Names(Table(), parent, parent)
      modifies this`entries, this`freeInodes, this`guards
      ensures (r, Table()) == Inodes.Unlink(old(Table()), parent, name, isRmdir)
      ensures guards == old(guards)
    {
      ghost var start := Table();
      var dir := OpenGuard(parent);
      if dir.Err? { return Err(dir.errno); }
      var entry := entries[parent].value;
      assert FilesOf(Table(), parent) == FilesOf(start, parent);
      if entry.content.File? {
        r := Err(ENOTDIR);
      } else if name !in entry.content.files {
        r := Err(ENOENT);
      } else {
        r := UnlinkEntry(parent, name, isRmdir);
      }
      CloseGuard(parent);
    }

    /** Takes the name away, and puts it back if the entry is of the wrong kind. */
    method UnlinkEntry(parent: nat, name: Name, isRmdir: bool) returns (r: Result<()>)
      requires Live(Table(), parent) && name in FilesOf(Table(), parent)
      requires FilesOf(Table(), parent)[name] != parent
      modifies this`entries, this`freeInodes, this`guards
      ensures (r, DropGuard(Table(), parent)) == UnlinkNamed(old(Table()), parent, name, isRmdir)
      ensures guards == old(guards)
    {
      var dir := entries[parent].value;
      var files := dir.content.files;
      var inode := files[name];
      ghost var start := Table();
      entries := entries[parent := Some(dir.(content := Dir(files - {name})))];
      var looked := OpenGuard(inode);
      if looked.Err? { return Err(looked.errno); }
      var entry := entries[inode].value;
      var failure := UnlinkError(entry.content, isRmdir);
      if failure.Some? {
        entries := entries[parent := Some(dir.(content := Dir((files - {name})[name := inode])))];
        assert (files - {name})[name := inode] == files;
        assert Table() == AddLookup(start, inode);
        r := Err(failure.value);
      } else {
        entries := entries[inode := Some(entry.(links := Sub(entry.links, 1)))];
        assert Table() == Unlinked(AddLookup(start, inode), parent, name);
        r := Ok(());
      }
      CloseGuard(inode);
    }
  }
}
