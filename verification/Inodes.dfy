/** The inode table of examples/tmpfs/fs.rs as a value: what each operation does to it. */
module Inodes {
  import opened Bytes
  import opened Protocol
  import opened BTree

  const S_IFDIR: u32 := 0x4000
  const S_IFREG: u32 := 0x8000
  /** `mode | S_IFDIR` and `mode | S_IFREG` */
  function AsDir(mode: u32): u32 { if mode / S_IFDIR % 2 == 1 then mode else mode + S_IFDIR }

  function AsFile(mode: u32): u32 { if mode / S_IFREG % 2 == 1 then mode else mode + S_IFREG }

  const USIZE := 0x1_0000_0000_0000_0000

  datatype Content = Dir(files: map<Name, nat>) | File

  /** `FsEntry`; of the stat only the inode number and the mode are kept. */
  datatype Entry = Entry(inode: nat, parent: nat, lookups: nat, links: nat, mode: u32, content: Content)

  /** The slots, and the stack of inode numbers to reuse. */
  datatype State = State(entries: seq<Option<Entry>>, free: seq<nat>)

  predicate Live(st: State, i: nat)
  {
    i < |st.entries| && st.entries[i].Some?
  }

  function At(st: State, i: nat): Entry
    requires Live(st, i)
  {
    st.entries[i].value
  }

  function Put(st: State, i: nat, e: Entry): State
    requires i < |st.entries|
  {
    st.(entries := st.entries[i := Some(e)])
  }

  /** The directory map of slot `i`; empty for files and empty slots. */
  function FilesOf(st: State, i: nat): map<Name, nat>
  {
    if Live(st, i) && At(st, i).content.Dir? then At(st, i).content.files else map[]
  }

  /** `fetch_sub` on an `AtomicUsize`. */
  function Sub(a: nat, n: nat): nat
  {
    if n <= a then a - n else if n - a <= USIZE then a + USIZE - n else 0
  }

  /** The inodes of a directory map in iteration order. */
  ghost function Values(files: map<Name, nat>): (vs: seq<nat>)
    ensures |vs| == |files|
  {
    var names := SortedNames(files.Keys);
    seq(|names|, i requires 0 <= i < |names| => files[names[i]])
  }

  lemma ValuesMembers(files: map<Name, nat>, v: nat)
    ensures v in Values(files) <==> v in files.Values
  {
    var names := SortedNames(files.Keys);
    if v in files.Values {
      var n :| n in files && files[n] == v;
      assert n in names;
      var i :| 0 <= i < |names| && names[i] == n;
      assert Values(files)[i] == v;
    }
    if v in Values(files) {
      var i :| 0 <= i < |names| && Values(files)[i] == v;
      assert names[i] in files.Keys;
    }
  }

  // ----- a measure for recursive deletion: how many directories have entries

  ghost function FullDirs(st: State): set<nat>
  {
    set i | 0 <= i < |st.entries| && FilesOf(st, i) != map[]
  }

  ghost function Weight(st: State): nat
  {
    |FullDirs(st)|
  }

  lemma PutKeepsWeight(st: State, i: nat, e: Entry)
    requires Live(st, i) && e.content == At(st, i).content
    ensures Weight(Put(st, i, e)) == Weight(st)
  {
    var st' := Put(st, i, e);
    assert forall k :: 0 <= k < |st.entries| ==> FilesOf(st', k) == FilesOf(st, k);
    assert FullDirs(st') == FullDirs(st);
  }

  lemma EmptyingLowersWeight(st: State, i: nat, e: Entry)
    requires Live(st, i) && FilesOf(st, i) != map[] && e.content == Dir(map[])
    ensures Weight(Put(st, i, e)) < Weight(st)
  {
    var st' := Put(st, i, e);
    assert forall k :: 0 <= k < |st.entries| && k != i ==> FilesOf(st', k) == FilesOf(st, k);
    assert i in FullDirs(st);
    assert FullDirs(st) == FullDirs(st') + {i} && i !in FullDirs(st');
  }

  lemma ClearingKeepsWeight(st: State, i: nat, free: seq<nat>)
    requires i < |st.entries|
    ensures Weight(State(st.entries[i := None], free)) <= Weight(st)
  {
    var st' := State(st.entries[i := None], free);
    assert forall k :: 0 <= k < |st.entries| && k != i ==> FilesOf(st', k) == FilesOf(st, k);
    assert FullDirs(st') <= FullDirs(st);
    SubsetSize(FullDirs(st'), FullDirs(st));
  }

  lemma SubsetSize(a: set<nat>, b: set<nat>)
    requires a <= b
    ensures |a| <= |b|
  {
    assert b == a + (b - a);
  }

  // ----- forget_entry, on_drop

  /** `forget_entry(entry, n)`: the count before the subtraction decides. */
  ghost function ForgetEntry(st: State, i: nat, n: nat): (r: State)
    requires Live(st, i)
    ensures |r.entries| == |st.entries| && Weight(r) <= Weight(st)
    decreases Weight(st), 2, 0
  {
    var e := At(st, i);
    var st1 := Put(st, i, e.(lookups := Sub(e.lookups, n)));
    PutKeepsWeight(st, i, e.(lookups := Sub(e.lookups, n)));
    if e.lookups > 1 || e.links != 0 then st1 else Delete(st1, i)
  }

  /** The rest of it: drop the contents, clear the slot, offer the number for reuse. */
  ghost function Delete(st: State, i: nat): (r: State)
    requires Live(st, i)
    ensures |r.entries| == |st.entries| && Weight(r) <= Weight(st)
    decreases Weight(st), 1, 0
  {
    var st1 := OnDrop(st, i);
    ClearingKeepsWeight(st1, i, st1.free + [i]);
    State(st1.entries[i := None], st1.free + [i])
  }

  /** `Dir::on_drop` takes the directory map and drops one link from every child. */
  ghost function OnDrop(st: State, i: nat): (r: State)
    requires Live(st, i)
    ensures |r.entries| == |st.entries| && Weight(r) <= Weight(st)
    decreases Weight(st), 0, 0
  {
    var e := At(st, i);
    if FilesOf(st, i) == map[] then st
    else
      var st1 := Put(st, i, e.(content := Dir(map[])));
      EmptyingLowersWeight(st, i, e.(content := Dir(map[])));
      DropLinks(st1, Values(FilesOf(st, i)))
  }

  /** Its loop: look each child up, drop a link, drop the guard. A child that cannot be looked up ends
      the loop. */
  ghost function DropLinks(st: State, cs: seq<nat>): (r: State)
    ensures |r.entries| == |st.entries| && Weight(r) <= Weight(st)
    decreases Weight(st), 3, |cs|
  {
    if cs == [] || !Live(st, cs[0]) then st
    else
      var c := cs[0];
      var e := At(st, c);
      var e' := e.(lookups := e.lookups + 1, links := Sub(e.links, 1));
      PutKeepsWeight(st, c, e');
      DropLinks(ForgetEntry(Put(st, c, e'), c, 1), cs[1..])
  }

  // ----- guards

  /** `InodeLookup::new`. */
  function AddLookup(st: State, i: nat): State
    requires Live(st, i)
  {
    Put(st, i, At(st, i).(lookups := At(st, i).lookups + 1))
  }

  /** Dropping an `InodeLookup`. A guard whose entry is gone would be a dangling pointer in the source;
      the invariant excludes it. */
  ghost function DropGuard(st: State, i: nat): State
  {
    if Live(st, i) then ForgetEntry(st, i, 1) else st
  }

  /** Why `lookup` refuses an inode: deleted, or never handed out. */
  function LookupError(st: State, i: nat): nat
  {
    if i < |st.entries| then ENOENT else EIO
  }

  // ----- the operations: result and new state; Ok(i) carries a guard on i

  function Lookup(st: State, inode: nat): (Result<nat>, State)
  {
    if Live(st, inode) then (Ok(inode), AddLookup(st, inode)) else (Err(LookupError(st, inode)), st)
  }

  const DOT: Name := [46]
  const DOTDOT: Name := [46, 46]

  ghost function LookupAt(st: State, inode: nat, name: Name): (Result<nat>, State)
  {
    if !Live(st, inode) then (Err(LookupError(st, inode)), st)
    else
      var st1 := AddLookup(st, inode);
      if name == DOT then (Ok(inode), st1)
      else
        var node := At(st1, inode);
        if node.content.File? then (Err(ENOTDIR), DropGuard(st1, inode))
        else if name == DOTDOT then
          var (r, st2) := Lookup(st1, node.parent);
          (r, DropGuard(st2, inode))
        else if name in node.content.files then
          var (r, st2) := Lookup(st1, node.content.files[name]);
          (r, DropGuard(st2, inode))
        else (Err(ENOENT), DropGuard(st1, inode))
  }

  ghost function Forget(st: State, inode: nat, n: nat): (Result<()>, State)
  {
    if Live(st, inode) then (Ok(()), ForgetEntry(st, inode, n))
    else (Err(LookupError(st, inode)), st)
  }

  /** The numbers on the free list are slots. */
  predicate FreeInRange(st: State)
  {
    forall k :: 0 <= k < |st.free| ==> st.free[k] < |st.entries|
  }

  /** The slot a new entry goes to, and the table with that slot taken off the free list or added. */
  function Allocate(st: State): (nat, State)
  {
    if st.free != [] then (st.free[|st.free| - 1], st.(free := st.free[..|st.free| - 1]))
    else (|st.entries|, st.(entries := st.entries + [None]))
  }

  /** The table after a new entry was stored, named in its parent and looked up. */
  function Created(st: State, parent: nat, name: Name, mode: u32, content: Content): (nat, State)
    requires Live(st, parent) && At(st, parent).content.Dir? && FreeInRange(st)
  {
    var (inode, st1) := Allocate(st);
    var st2 := Put(st1, inode, Entry(inode, parent, 0, 1, mode, content));
    var p := At(st, parent);
    var st3 := Put(st2, parent, p.(content := Dir(p.content.files[name := inode])));
    (inode, AddLookup(st3, inode))
  }

  ghost function DoCreate(st: State, parent: nat, name: Name, mode: u32, content: Content): (Result<nat>, State)
    requires FreeInRange(st)
  {
    if !Live(st, parent) then (Err(LookupError(st, parent)), st)
    else
      var st1 := AddLookup(st, parent);
      if At(st1, parent).content.File? then (Err(ENOTDIR), DropGuard(st1, parent))
      else if name in FilesOf(st1, parent) then (Err(EEXIST), DropGuard(st1, parent))
      else
        var (inode, st2) := Created(st1, parent, name, mode, content);
        (Ok(inode), DropGuard(st2, parent))
  }

  /** Why an existing entry cannot be unlinked this way. */
  function UnlinkError(content: Content, isRmdir: bool): Option<nat>
  {
    match content
    case Dir(files) => if !isRmdir then Some(EISDIR) else if files != map[] then Some(ENOTEMPTY) else None
    case File => if isRmdir then Some(ENOTDIR) else None
  }

  function WithFiles(st: State, d: nat, files: map<Name, nat>): State
    requires Live(st, d)
  {
    Put(st, d, At(st, d).(content := Dir(files)))
  }

  /** The table with the name gone from the directory and one link fewer on what it named. */
  function Unlinked(st: State, parent: nat, name: Name): State
    requires Live(st, parent) && name in FilesOf(st, parent) && Live(st, FilesOf(st, parent)[name])
  {
    var files := FilesOf(st, parent);
    var st1 := WithFiles(st, parent, files - {name});
    var e := At(st1, files[name]);
    Put(st1, files[name], e.(links := Sub(e.links, 1)))
  }

  /** `unlink` once the directory is looked up and holds the name; the guard on it is dropped last. */
  ghost function UnlinkNamed(st: State, parent: nat, name: Name, isRmdir: bool): (Result<()>, State)
    requires Live(st, parent) && name in FilesOf(st, parent)
  {
    var c := FilesOf(st, parent)[name];
    if !Live(st, c) then
      // the name is gone already when the lookup of the entry fails
      (Err(LookupError(st, c)), DropGuard(WithFiles(st, parent, FilesOf(st, parent) - {name}), parent))
    else
      var st1 := AddLookup(st, c);
      match UnlinkError(At(st1, c).content, isRmdir)
      case Some(errno) => (Err(errno), DropGuard(DropGuard(st1, c), parent))
      case None =>
        assert FilesOf(st1, parent) == FilesOf(st, parent);
        (Ok(()), DropGuard(DropGuard(Unlinked(st1, parent, name), c), parent))
  }

  ghost function Unlink(st: State, parent: nat, name: Name, isRmdir: bool): (Result<()>, State)
  {
    if !Live(st, parent) then (Err(LookupError(st, parent)), st)
    else
      var st1 := AddLookup(st, parent);
      if At(st1, parent).content.File? then (Err(ENOTDIR), DropGuard(st1, parent))
      else if name !in FilesOf(st1, parent) then (Err(ENOENT), DropGuard(st1, parent))
      else UnlinkNamed(st1, parent, name, isRmdir)
  }

  function Initial(): State
  {
    State([None, Some(Entry(FUSE_ROOT_ID, FUSE_ROOT_ID, 1, 1, S_IFDIR + 0x1ED, Dir(map[])))], [])
  }
}
