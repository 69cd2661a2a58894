/** The structural invariant of the inode table, and what recursive deletion does to it. */
module Forest {
  import opened Bytes
  import opened Protocol
  import opened BTree
  import opened Inodes

  // ----- the invariant

  /** Directory `d` names inode `c`. */
  ghost predicate Names(st: State, d: nat, c: nat)
  {
    c in FilesOf(st, d).Values
  }

  /** Inode `c` is named in the directory it was created in. */
  ghost predicate Linked(st: State, c: nat)
    requires Live(st, c)
  {
    Names(st, At(st, c).parent, c)
  }

  ghost predicate Roots(st: State)
  {
    && |st.entries| >= 2 && st.entries[0].None?
    && Live(st, FUSE_ROOT_ID) && At(st, FUSE_ROOT_ID).content.Dir? && At(st, FUSE_ROOT_ID).parent == FUSE_ROOT_ID
    && forall i :: Live(st, i) ==> At(st, i).inode == i
  }

  /** Every name leads to a live entry created in that directory, and no inode has two names. */
  ghost predicate GoodNames(st: State)
  {
    && (forall d, n :: n in FilesOf(st, d) ==> GoodChild(st, d, FilesOf(st, d)[n]))
    && (forall d, n, m :: n in FilesOf(st, d) && m in FilesOf(st, d) && n != m ==>
        FilesOf(st, d)[n] != FilesOf(st, d)[m])
  }

  ghost predicate GoodChild(st: State, d: nat, c: nat)
  {
    Live(st, c) && c >= 2 && At(st, c).parent == d
  }

  /** Link counts: the root's own, the name, and one for each entry of `pending`, the inodes whose name
      is gone but whose link has not been dropped yet. */
  ghost predicate GoodLinks(st: State, pending: set<nat>)
  {
    && (forall c :: Live(st, c) ==>
          At(st, c).links == One(c == FUSE_ROOT_ID) + One(Linked(st, c)) + One(c in pending))
    && (forall c :: c in pending ==> Live(st, c) && c >= 2 && !Linked(st, c))
  }

  ghost predicate Structure(st: State, pending: set<nat>)
  {
    Roots(st) && GoodNames(st) && GoodLinks(st, pending)
  }

  // ----- what a sweep leaves behind

  ghost predicate Freed(st: State, st': State, k: nat)
  {
    Live(st, k) && !Live(st', k)
  }

  /** Inode `k` loses a link: it is one of `dropped`, or the directory naming it was freed. */
  ghost predicate LosesLink(st: State, st': State, dropped: set<nat>, k: nat)
    requires Live(st, k)
  {
    k in dropped || (Linked(st, k) && Freed(st, st', At(st, k).parent))
  }

  /** `st'` is `st` after one link of each of `dropped` was dropped and `doomed` was deleted, with all
      that follows: exactly `doomed` and the entries without lookups that lost their link are freed,
      every other entry that lost its link has one link fewer, nothing else changes, and the freed
      numbers are appended once each to the free list. */
  ghost predicate Swept(st: State, st': State, dropped: set<nat>, doomed: set<nat>)
  {
    && |st'.entries| == |st.entries|
    && (forall k :: Live(st', k) ==> Live(st, k))
    && (forall k :: Live(st, k) ==> FreedRight(st, st', dropped, doomed, k))
    && (forall k :: Live(st', k) ==> KeptRight(st, st', dropped, k))
    && FreeGrew(st, st')
  }

  ghost predicate FreedRight(st: State, st': State, dropped: set<nat>, doomed: set<nat>, k: nat)
    requires Live(st, k)
  {
    Freed(st, st', k) <==> k in doomed || (At(st, k).lookups == 0 && LosesLink(st, st', dropped, k))
  }

  ghost predicate KeptRight(st: State, st': State, dropped: set<nat>, k: nat)
    requires Live(st', k)
  {
    && Live(st, k)
    && At(st, k).links >= One(LosesLink(st, st', dropped, k))
    && At(st', k) == At(st, k).(links := At(st, k).links - One(LosesLink(st, st', dropped, k)))
  }

  predicate Distinct(s: seq<nat>)
  {
    forall i, j :: 0 <= i < j < |s| ==> s[i] != s[j]
  }

  ghost predicate FreeGrew(st: State, st': State)
  {
    && |st.free| <= |st'.free| && st'.free[..|st.free|] == st.free
    && Distinct(st'.free[|st.free|..])
    && forall k :: k in st'.free[|st.free|..] <==> Freed(st, st', k)
  }

  // ----- facts about single updates

  /** Changing the counts of an entry changes no name. */
  lemma CountsOnly(st: State, i: nat, e: Entry)
    requires Live(st, i) && e.content == At(st, i).content && e.parent == At(st, i).parent && e.inode == At(st, i).inode
    ensures var st' := Put(st, i, e);
            && (forall k :: Live(st', k) <==> Live(st, k))
            && (forall d :: FilesOf(st', d) == FilesOf(st, d))
            && (forall c :: Live(st, c) ==> (Linked(st', c) <==> Linked(st, c)))
            && (Roots(st) ==> Roots(st')) && (GoodNames(st) ==> GoodNames(st'))
  {
    var st' := Put(st, i, e);
    assert forall k :: Live(st', k) <==> Live(st, k);
    assert forall d :: FilesOf(st', d) == FilesOf(st, d);
    assert forall d, c :: GoodChild(st, d, c) ==> GoodChild(st', d, c);
  }

  lemma LookupsOnly(st: State, i: nat, lookups: nat, pending: set<nat>)
    requires Live(st, i) && Structure(st, pending)
    ensures Structure(Put(st, i, At(st, i).(lookups := lookups)), pending)
  {
    CountsOnly(st, i, At(st, i).(lookups := lookups));
  }

  lemma DropPendingLink(st: State, i: nat, lookups: nat, pending: set<nat>)
    requires Structure(st, pending) && i in pending
    ensures Live(st, i) && At(st, i).links == 1
    ensures Structure(Put(st, i, At(st, i).(lookups := lookups, links := 0)), pending - {i})
  {
    CountsOnly(st, i, At(st, i).(lookups := lookups, links := 0));
  }

  // ----- sweeps compose

  function Members(s: seq<nat>): set<nat>
  {
    set v | v in s
  }

  /** Two sweeps in a row are one, provided no link is lost twice. */
  lemma Compose(a: State, b: State, c: State, first: set<nat>, second: set<nat>, pending: set<nat>)
    requires Structure(a, pending) && first + second <= pending && first !! second
    requires Swept(a, b, first, {}) && Swept(b, c, second, {})
    ensures Swept(a, c, first + second, {})
  {
    forall k | Live(a, k) ensures FreedRight(a, c, first + second, {}, k) {
      ComposeFreed(a, b, c, first, second, pending, k);
    }
    forall k | Live(c, k) ensures KeptRight(a, c, first + second, k) {
      ComposeKept(a, b, c, first, second, pending, k);
    }
    ComposeFree(a, b, c);
  }

  /** Who loses a link in which of the two sweeps. */
  lemma ComposeLoss(a: State, b: State, c: State, first: set<nat>, second: set<nat>, pending: set<nat>, k: nat)
    requires Structure(a, pending) && first + second <= pending && first !! second
    requires Swept(a, b, first, {}) && Swept(b, c, second, {})
    requires Live(b, k)
    ensures Live(a, k)
    ensures LosesLink(a, c, first + second, k) <==> LosesLink(a, b, first, k) || LosesLink(b, c, second, k)
    ensures !(LosesLink(a, b, first, k) && LosesLink(b, c, second, k))
  {
    assert KeptRight(a, b, first, k);
    var d := At(a, k).parent;
    assert At(b, k).parent == d;
    if Live(b, d) {
      assert KeptRight(a, b, first, d);
      assert FilesOf(b, d) == FilesOf(a, d);
    } else {
      assert FilesOf(b, d) == map[];
      assert Linked(a, k) ==> Freed(a, b, d);
    }
  }

  lemma ComposeFreed(a: State, b: State, c: State, first: set<nat>, second: set<nat>, pending: set<nat>, k: nat)
    requires Structure(a, pending) && first + second <= pending && first !! second
    requires Swept(a, b, first, {}) && Swept(b, c, second, {})
    requires Live(a, k)
    ensures FreedRight(a, c, first + second, {}, k)
  {
    assert FreedRight(a, b, first, {}, k);
    if Live(b, k) {
      ComposeLoss(a, b, c, first, second, pending, k);
      assert FreedRight(b, c, second, {}, k) && KeptRight(a, b, first, k);
    } else if k !in first {
      assert Freed(a, c, At(a, k).parent);
    }
  }

  lemma ComposeKept(a: State, b: State, c: State, first: set<nat>, second: set<nat>, pending: set<nat>, k: nat)
    requires Structure(a, pending) && first + second <= pending && first !! second
    requires Swept(a, b, first, {}) && Swept(b, c, second, {})
    requires Live(c, k)
    ensures KeptRight(a, c, first + second, k)
  {
    assert KeptRight(b, c, second, k) && KeptRight(a, b, first, k);
    ComposeLoss(a, b, c, first, second, pending, k);
  }

  lemma ComposeFree(a: State, b: State, c: State)
    requires FreeGrew(a, b) && FreeGrew(b, c)
    requires forall k :: Live(b, k) ==> Live(a, k)
    requires forall k :: Live(c, k) ==> Live(b, k)
    ensures FreeGrew(a, c)
  {
    var s, t := b.free[|a.free|..], c.free[|b.free|..];
    assert c.free == b.free + t == a.free + (s + t);
    assert c.free[|a.free|..] == s + t;
    forall i, j | 0 <= i < j < |s + t| ensures (s + t)[i] != (s + t)[j] {
      if i < |s| <= j {
        assert (s + t)[i] in s && (s + t)[j] in t;
      }
    }
  }

  // ----- recursive deletion

  lemma SweepNothing(st: State)
    ensures Swept(st, st, {}, {})
  {
    assert st.free[|st.free|..] == [];
  }

  /** Looking a child up, dropping its last link and dropping the guard again. */
  lemma UnlinkedGuard(st: State, c: nat)
    requires Live(st, c) && At(st, c).links == 1
    ensures var e := At(st, c);
            var st2 := Put(st, c, e.(links := 0));
            ForgetEntry(Put(st, c, e.(lookups := e.lookups + 1, links := Sub(e.links, 1))), c, 1) ==
              if e.lookups > 0 then st2 else Delete(st2, c)
  {
    var e := At(st, c);
    var st1 := Put(st, c, e.(lookups := e.lookups + 1, links := 0));
    assert Put(st1, c, At(st1, c).(lookups := e.lookups)) == Put(st, c, e.(links := 0));
  }

  /** Dropping one pending link, whatever follows from it. */
  lemma {:induction false} StepSwept(st: State, c: nat, pending: set<nat>)
    requires Structure(st, pending) && c in pending && Live(st, c)
    ensures var e := At(st, c);
            var st' := ForgetEntry(Put(st, c, e.(lookups := e.lookups + 1, links := Sub(e.links, 1))), c, 1);
            Structure(st', pending - {c}) && Swept(st, st', {c}, {})
    decreases Weight(st), 2, 0
  {
    var e := At(st, c);
    DropPendingLink(st, c, e.lookups, pending);
    UnlinkedGuard(st, c);
    var st2 := Put(st, c, e.(links := 0));
    PutKeepsWeight(st, c, e.(links := 0));
    if e.lookups > 0 {
      OneLinkFewer(st, c, pending);
    } else {
      DeleteSwept(st2, c, pending - {c});
      AfterLastLink(st, st2, Delete(st2, c), c, pending);
    }
  }

  lemma OneLinkFewer(st: State, c: nat, pending: set<nat>)
    requires Structure(st, pending) && c in pending && Live(st, c) && At(st, c).lookups > 0
    ensures Swept(st, Put(st, c, At(st, c).(links := 0)), {c}, {})
  {
    var st' := Put(st, c, At(st, c).(links := 0));
    CountsOnly(st, c, At(st, c).(links := 0));
    assert st'.free[|st.free|..] == [];
    assert forall k :: !Freed(st, st', k);
    assert forall k :: Live(st, k) ==> FreedRight(st, st', {c}, {}, k);
    assert forall k :: Live(st', k) ==> KeptRight(st, st', {c}, k);
  }

  lemma AfterLastLink(st: State, st2: State, st': State, c: nat, pending: set<nat>)
    requires Structure(st, pending) && c in pending && Live(st, c) && At(st, c).lookups == 0
    requires st2 == Put(st, c, At(st, c).(links := 0)) && Swept(st2, st', {}, {c})
    ensures Swept(st, st', {c}, {})
  {
    CountsOnly(st, c, At(st, c).(links := 0));
    forall k | Live(st, k) ensures FreedRight(st, st', {c}, {}, k) {
      assert FreedRight(st2, st', {}, {c}, k);
    }
    forall k | Live(st', k) ensures KeptRight(st, st', {c}, k) {
      assert KeptRight(st2, st', {}, k);
      assert FreedRight(st2, st', {}, {c}, c);
    }
  }

  lemma HeadMembers(cs: seq<nat>, pending: set<nat>)
    requires cs != [] && Distinct(cs) && Members(cs) <= pending
    ensures cs[0] in pending && cs[0] !in Members(cs[1..]) && Distinct(cs[1..]) && Members(cs[1..]) <= pending - {cs[0]}
    ensures Members(cs) == {cs[0]} + Members(cs[1..])
    ensures pending - {cs[0]} - Members(cs[1..]) == pending - Members(cs)
  {
    assert cs[0] in Members(cs);
    assert forall k :: k in Members(cs) <==> k == cs[0] || k in Members(cs[1..]);
  }

  lemma {:induction false} DropLinksSwept(st: State, cs: seq<nat>, pending: set<nat>)
    requires Structure(st, pending) && Distinct(cs) && Members(cs) <= pending
    ensures Structure(DropLinks(st, cs), pending - Members(cs))
    ensures Swept(st, DropLinks(st, cs), Members(cs), {})
    decreases Weight(st), 3, |cs|
  {
    if cs == [] {
      assert pending - Members(cs) == pending && Members(cs) == {};
      SweepNothing(st);
    } else {
      var c, rest := cs[0], cs[1..];
      HeadMembers(cs, pending);
      var e := At(st, c);
      var e' := e.(lookups := e.lookups + 1, links := Sub(e.links, 1));
      var st2 := ForgetEntry(Put(st, c, e'), c, 1);
      PutKeepsWeight(st, c, e');
      StepSwept(st, c, pending);
      DropLinksSwept(st2, rest, pending - {c});
      Compose(st, st2, DropLinks(st2, rest), {c}, Members(rest), pending);
    }
  }

  /** Deleting an entry that has no link left. */
  lemma {:induction false} DeleteSwept(st: State, i: nat, pending: set<nat>)
    requires Structure(st, pending) && Live(st, i) && At(st, i).links == 0
    ensures Structure(Delete(st, i), pending)
    ensures Swept(st, Delete(st, i), {}, {i})
    decreases Weight(st), 1, 0
  {
    var files := FilesOf(st, i);
    var cs := Values(files);
    ValuesOfGoodNames(st, i);
    EmptiedStructure(st, i, pending);
    ChildrenNotPending(st, i, pending);
    assert pending !! Members(cs);
    if files == map[] {
      SweepNothing(st);
      assert cs == [] && Members(cs) == {} && pending + Members(cs) == pending;
    } else {
      EmptyingLowersWeight(st, i, At(st, i).(content := Dir(map[])));
      DropLinksSwept(Emptied(st, i), cs, pending + Members(cs));
      assert pending + Members(cs) - Members(cs) == pending;
    }
    ClearedSwept(st, OnDrop(st, i), i, pending);
  }

  lemma ValuesOfGoodNames(st: State, d: nat)
    requires GoodNames(st)
    ensures Distinct(Values(FilesOf(st, d)))
    ensures forall c :: c in Members(Values(FilesOf(st, d))) <==> Names(st, d, c)
  {
    var files := FilesOf(st, d);
    var names := SortedNames(files.Keys);
    SortedNamesDistinct(files.Keys);
    forall i, j | 0 <= i < j < |names| ensures Values(files)[i] != Values(files)[j] {
      assert names[i] in names && names[j] in names;
    }
    forall c ensures c in Members(Values(files)) <==> Names(st, d, c) {
      ValuesMembers(files, c);
    }
  }

  lemma ChildrenNotPending(st: State, d: nat, pending: set<nat>)
    requires Structure(st, pending)
    ensures forall c :: Names(st, d, c) ==> GoodChild(st, d, c) && Linked(st, c) && c !in pending
  {
  }

  /** The table with the map of `i` taken away. */
  function Emptied(st: State, i: nat): State
    requires Live(st, i)
  {
    if FilesOf(st, i) == map[] then st else Put(st, i, At(st, i).(content := Dir(map[])))
  }

  lemma EmptiedNames(st: State, i: nat)
    requires GoodNames(st) && Live(st, i)
    ensures var st1 := Emptied(st, i);
            && st1.free == st.free && |st1.entries| == |st.entries|
            && (forall k :: Live(st1, k) <==> Live(st, k))
            && (forall k :: Live(st, k) && k != i ==> At(st1, k) == At(st, k))
            && At(st1, i) == At(st, i).(content := At(st1, i).content) && FilesOf(st1, i) == map[]
            && (forall d :: d != i ==> FilesOf(st1, d) == FilesOf(st, d))
            && (Roots(st) ==> Roots(st1)) && GoodNames(st1)
  {
    var st1 := Emptied(st, i);
    assert forall k :: Live(st1, k) <==> Live(st, k);
    assert forall d :: d != i ==> FilesOf(st1, d) == FilesOf(st, d);
    assert forall d, c :: GoodChild(st, d, c) ==> GoodChild(st1, d, c);
  }

  /** Which entries are linked once the map of `i` is gone. */
  lemma EmptiedLinked(st: State, i: nat, k: nat)
    requires GoodNames(st) && Live(st, i) && Live(st, k)
    ensures Live(Emptied(st, i), k)
    ensures Linked(Emptied(st, i), k) <==> Linked(st, k) && At(st, k).parent != i
    ensures Names(st, i, k) <==> Linked(st, k) && At(st, k).parent == i
  {
    EmptiedNames(st, i);
    assert At(Emptied(st, i), k).parent == At(st, k).parent;
    if Names(st, i, k) { assert GoodChild(st, i, k); }
  }

  /** With its map taken away the children of `i` wait for their links to be dropped. */
  lemma EmptiedStructure(st: State, i: nat, pending: set<nat>)
    requires Structure(st, pending) && Live(st, i) && At(st, i).links == 0
    ensures Structure(Emptied(st, i), pending + Members(Values(FilesOf(st, i))))
    ensures !Linked(st, i) && i !in Members(Values(FilesOf(st, i)))
  {
    var st1, cs := Emptied(st, i), Members(Values(FilesOf(st, i)));
    ValuesOfGoodNames(st, i);
    EmptiedNames(st, i);
    forall c | Live(st1, c)
      ensures At(st1, c).links == One(c == FUSE_ROOT_ID) + One(Linked(st1, c)) + One(c in pending + cs)
    {
      EmptiedLinked(st, i, c);
    }
    forall c | c in pending + cs ensures Live(st1, c) && c >= 2 && !Linked(st1, c) {
      if c in cs { assert GoodChild(st, i, c); }
      EmptiedLinked(st, i, c);
    }
    EmptiedLinked(st, i, i);
  }

  /** Clearing the slot after the children are done. */
  lemma ClearedSwept(st: State, st2: State, i: nat, pending: set<nat>)
    requires Structure(st, pending) && Live(st, i) && At(st, i).links == 0
    requires Structure(st2, pending) && Swept(Emptied(st, i), st2, Members(Values(FilesOf(st, i))), {})
    ensures Live(st2, i)
    ensures var st' := State(st2.entries[i := None], st2.free + [i]);
            Structure(st', pending) && Swept(st, st', {}, {i})
  {
    var st' := State(st2.entries[i := None], st2.free + [i]);
    SurvivesOwnSweep(st, st2, i, pending);
    EmptiedNames(st, i);
    forall k | Live(st, k) ensures FreedRight(st, st', {}, {i}, k) {
      ClearedEntry(st, st2, i, pending, k);
    }
    forall k | Live(st', k) ensures KeptRight(st, st', {}, k) {
      assert Live(st2, k) && Live(Emptied(st, i), k) && Live(st, k);
      ClearedEntry(st, st2, i, pending, k);
    }
    ClearedFree(st, Emptied(st, i), st2, i);
    ClearedStructure(st2, i, pending);
  }

  lemma SurvivesOwnSweep(st: State, st2: State, i: nat, pending: set<nat>)
    requires Structure(st, pending) && Live(st, i) && At(st, i).links == 0
    requires Swept(Emptied(st, i), st2, Members(Values(FilesOf(st, i))), {})
    ensures Live(st2, i) && At(st2, i).links == 0 && FilesOf(st2, i) == map[]
  {
    var st1, cs := Emptied(st, i), Members(Values(FilesOf(st, i)));
    EmptiedStructure(st, i, pending);
    EmptiedNames(st, i);
    EmptiedLinked(st, i, i);
    assert FreedRight(st1, st2, cs, {}, i) && !LosesLink(st1, st2, cs, i);
    assert KeptRight(st1, st2, cs, i);
  }

  lemma ClearedEntry(st: State, st2: State, i: nat, pending: set<nat>, k: nat)
    requires Structure(st, pending) && Live(st, i) && At(st, i).links == 0 && Live(st, k) && Live(st2, i)
    requires Swept(Emptied(st, i), st2, Members(Values(FilesOf(st, i))), {})
    ensures var st' := State(st2.entries[i := None], st2.free + [i]);
            FreedRight(st, st', {}, {i}, k) && (Live(st', k) ==> KeptRight(st, st', {}, k))
  {
    if k != i { ClearedOther(st, st2, i, pending, k); }
  }

  lemma ClearedOther(st: State, st2: State, i: nat, pending: set<nat>, k: nat)
    requires Structure(st, pending) && Live(st, i) && At(st, i).links == 0 && Live(st, k) && Live(st2, i) && k != i
    requires Swept(Emptied(st, i), st2, Members(Values(FilesOf(st, i))), {})
    ensures var st' := State(st2.entries[i := None], st2.free + [i]);
            FreedRight(st, st', {}, {i}, k) && (Live(st', k) ==> KeptRight(st, st', {}, k))
  {
    var st1, cs := Emptied(st, i), Members(Values(FilesOf(st, i)));
    var st' := State(st2.entries[i := None], st2.free + [i]);
    EmptiedOther(st, i, k);
    ClearedLoss(st, st2, i, pending, k);
    SweptAt(st1, st2, cs, k);
    ClearedSlot(st2, i, k);
    SweptAlike(st, st1, st', st2, cs, i, k);
  }

  lemma EmptiedOther(st: State, i: nat, k: nat)
    requires Live(st, i) && Live(st, k) && k != i
    ensures Live(Emptied(st, i), k) && At(Emptied(st, i), k) == At(st, k)
  {
  }

  lemma ClearedSlot(st: State, i: nat, k: nat)
    requires Live(st, i) && k != i
    ensures var st' := State(st.entries[i := None], st.free + [i]);
            (Live(st', k) <==> Live(st, k)) && (Live(st, k) ==> At(st', k) == At(st, k))
  {
  }

  lemma SweptAt(st: State, st': State, dropped: set<nat>, k: nat)
    requires Swept(st, st', dropped, {}) && Live(st, k)
    ensures |st'.entries| == |st.entries|
    ensures FreedRight(st, st', dropped, {}, k) && (Live(st', k) ==> KeptRight(st, st', dropped, k))
  {
  }

  /** Entry `k` fares the same whether its link goes because of `dropped` or because `i` is freed. */
  lemma SweptAlike(st: State, st1: State, st': State, st2: State, dropped: set<nat>, i: nat, k: nat)
    requires Live(st, k) && Live(st1, k) && At(st1, k) == At(st, k) && k != i
    requires (Live(st', k) <==> Live(st2, k)) && (Live(st2, k) ==> At(st', k) == At(st2, k))
    requires LosesLink(st, st', {}, k) <==> LosesLink(st1, st2, dropped, k)
    requires FreedRight(st1, st2, dropped, {}, k) && (Live(st2, k) ==> KeptRight(st1, st2, dropped, k))
    ensures FreedRight(st, st', {}, {i}, k) && (Live(st', k) ==> KeptRight(st, st', {}, k))
  {
  }

  /** Seen from before the map was taken, the children of `i` lose their link because `i` is freed. */
  lemma ClearedLoss(st: State, st2: State, i: nat, pending: set<nat>, k: nat)
    requires Structure(st, pending) && Live(st, i) && At(st, i).links == 0 && Live(st, k)
              && |st2.entries| == |st.entries|
    ensures Live(Emptied(st, i), k)
    ensures LosesLink(st, State(st2.entries[i := None], st2.free + [i]), {}, k) <==>
              LosesLink(Emptied(st, i), st2, Members(Values(FilesOf(st, i))), k)
  {
    var st1 := Emptied(st, i);
    var st' := State(st2.entries[i := None], st2.free + [i]);
    ValuesOfGoodNames(st, i);
    EmptiedNames(st, i);
    EmptiedLinked(st, i, k);
    assert forall j :: j != i ==> (Freed(st, st', j) <==> Freed(st1, st2, j));
    assert Freed(st, st', i);
  }

  lemma ClearedFree(st: State, st1: State, st2: State, i: nat)
    requires FreeGrew(st1, st2) && st1.free == st.free && Live(st, i) && Live(st2, i)
    requires forall k :: Live(st1, k) <==> Live(st, k)
    ensures FreeGrew(st, State(st2.entries[i := None], st2.free + [i]))
  {
    var st' := State(st2.entries[i := None], st2.free + [i]);
    var s := st2.free[|st.free|..];
    assert st'.free[|st.free|..] == s + [i];
    assert forall k :: Freed(st, st', k) <==> Freed(st1, st2, k) || k == i;
    assert i !in s;
  }

  /** An entry without names or links can be cleared. */
  lemma ClearedStructure(st: State, i: nat, pending: set<nat>)
    requires Structure(st, pending) && Live(st, i) && At(st, i).links == 0 && FilesOf(st, i) == map[]
    ensures Structure(State(st.entries[i := None], st.free + [i]), pending)
  {
    var st' := State(st.entries[i := None], st.free + [i]);
    assert forall k :: Live(st', k) <==> Live(st, k) && k != i;
    assert forall d :: FilesOf(st', d) == FilesOf(st, d);
    assert forall k :: Live(st', k) ==> At(st', k) == At(st, k);
    forall d, n | n in FilesOf(st', d) ensures GoodChild(st', d, FilesOf(st', d)[n]) {
      assert GoodChild(st, d, FilesOf(st, d)[n]);
      assert Linked(st, FilesOf(st, d)[n]);
    }
  }
}
