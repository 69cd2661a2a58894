/** Invariants of the inode table over whole runs of operations. */
module Table {
  import opened Bytes
  import opened Protocol
  import opened Inodes
  import opened Forest

  // ----- the invariant between operations

  ghost predicate Ranked(st: State, rank: nat -> nat)
  {
    forall d, n :: n in FilesOf(st, d) ==> rank(d) < rank(FilesOf(st, d)[n])
  }

  /** The naming relation has no cycle: some ranking grows along every name. */
  ghost predicate Acyclic(st: State)
  {
    exists rank: nat -> nat :: Ranked(st, rank)
  }

  /** The free list holds each empty slot from 2 on exactly once. */
  ghost predicate FreeExact(st: State)
  {
    && Distinct(st.free)
    && forall k: nat :: k in st.free <==> 2 <= k < |st.entries| && st.entries[k].None?
  }

  /** `held` counts, per inode, the open guards and the counts handed out and not yet forgotten. */
  ghost predicate Counted(st: State, held: multiset<nat>)
  {
    forall k :: held[k] == if Live(st, k) then At(st, k).lookups else 0
  }

  ghost predicate Inv(st: State, held: multiset<nat>)
  {
    Structure(st, {}) && Acyclic(st) && FreeExact(st) && Counted(st, held)
  }

  /** Nothing is kept that nobody can reach or refers to. */
  ghost predicate NoLeak(st: State)
  {
    forall k :: Live(st, k) ==> At(st, k).lookups > 0 || At(st, k).links > 0
  }

  // ----- what the invariant says

  /** A chain of directories each naming the next. */
  ghost predicate Path(st: State, p: seq<nat>)
  {
    forall j :: 0 <= j < |p| - 1 ==> Names(st, p[j], p[j + 1])
  }

  lemma {:induction false} RankGrowsAlongPath(st: State, rank: nat -> nat, p: seq<nat>)
    requires Ranked(st, rank) && Path(st, p) && |p| >= 2
    ensures rank(p[0]) < rank(p[|p| - 1])
  {
    assert Names(st, p[0], p[1]);
    var n :| n in FilesOf(st, p[0]) && FilesOf(st, p[0])[n] == p[1];
    if |p| > 2 {
      var q := p[1..];
      forall j | 0 <= j < |q| - 1 ensures Names(st, q[j], q[j + 1]) {
        assert Names(st, p[j + 1], p[j + 1 + 1]);
      }
      RankGrowsAlongPath(st, rank, q);
    }
  }

  /** No directory is its own descendant. */
  lemma NoCycle(st: State, p: seq<nat>)
    requires Acyclic(st) && Path(st, p) && |p| >= 2
    ensures p[0] != p[|p| - 1]
  {
    var rank: nat -> nat :| Ranked(st, rank);
    RankGrowsAlongPath(st, rank, p);
  }

  /** All (directory, name) pairs naming `c`. */
  ghost function NamesOf(st: State, c: nat): set<(nat, Name)>
  {
    set d, n | 0 <= d < |st.entries| && n in FilesOf(st, d) && FilesOf(st, d)[n] == c :: (d, n)
  }

  lemma LinkedByName(st: State, d: nat, n: Name)
    requires GoodNames(st) && n in FilesOf(st, d)
    ensures Live(st, FilesOf(st, d)[n]) && Linked(st, FilesOf(st, d)[n])
  {
    assert GoodChild(st, d, FilesOf(st, d)[n]);
  }

  /** Every link count is the number of names of the entry, and the root has one more. */
  lemma LinksCountNames(st: State, c: nat)
    requires Structure(st, {}) && Live(st, c)
    ensures At(st, c).links == |NamesOf(st, c)| + One(c == FUSE_ROOT_ID)
    ensures |NamesOf(st, c)| <= 1
  {
    var s := NamesOf(st, c);
    if Linked(st, c) {
      var d := At(st, c).parent;
      var n :| n in FilesOf(st, d) && FilesOf(st, d)[n] == c;
      assert (d, n) in s;
      forall e | e in s ensures e == (d, n) {
        assert GoodChild(st, e.0, FilesOf(st, e.0)[e.1]);
      }
      assert s == {(d, n)};
    } else {
      if e :| e in s {
        LinkedByName(st, e.0, e.1);
      }
      assert s == {};
    }
  }

  // ----- recursive deletion frees exactly the right set

  /** `k` is `i`, or is reached from it through entries nobody looks at. */
  ghost predicate DoomedIn(st: State, i: nat, k: nat, steps: nat)
    requires Live(st, k)
    decreases steps
  {
    k == i ||
    (steps > 0 && At(st, k).lookups == 0 && Linked(st, k) && DoomedIn(st, i, At(st, k).parent, steps - 1))
  }

  ghost predicate Doomed(st: State, i: nat, k: nat)
    requires Live(st, k)
  {
    exists steps: nat :: DoomedIn(st, i, k, steps)
  }

  lemma {:induction false} DoomedAreFreed(st: State, st': State, i: nat, k: nat, steps: nat)
    requires Swept(st, st', {}, {i}) && Live(st, k) && DoomedIn(st, i, k, steps)
    ensures Freed(st, st', k)
    decreases steps
  {
    assert FreedRight(st, st', {}, {i}, k);
    if k != i {
      DoomedAreFreed(st, st', i, At(st, k).parent, steps - 1);
    }
  }

  lemma {:induction false} FreedAreDoomed(st: State, st': State, rank: nat -> nat, i: nat, k: nat)
    requires Swept(st, st', {}, {i}) && Ranked(st, rank) && Freed(st, st', k)
    ensures Doomed(st, i, k)
    decreases rank(k)
  {
    assert FreedRight(st, st', {}, {i}, k);
    if k == i {
      assert DoomedIn(st, i, k, 0);
    } else {
      var d := At(st, k).parent;
      var n :| n in FilesOf(st, d) && FilesOf(st, d)[n] == k;
      FreedAreDoomed(st, st', rank, i, d);
      var steps: nat :| DoomedIn(st, i, d, steps);
      assert DoomedIn(st, i, k, steps + 1);
    }
  }

  /** Deleting an unlinked entry frees it and every descendant reached through entries without lookups,
      and nothing else; a child still held survives, unlinked and otherwise untouched, and all other
      entries are unchanged. */
  lemma DeleteFreesExactly(st: State, i: nat)
    requires Structure(st, {}) && Acyclic(st) && Live(st, i) && At(st, i).links == 0
    ensures var st' := Delete(st, i);
            && (forall k :: Live(st, k) ==> (Freed(st, st', k) <==> Doomed(st, i, k)))
            && (forall k :: Live(st, k) && !Doomed(st, i, k) ==>
                  Live(st', k) &&
                  At(st', k) == if Linked(st, k) && Live(st, At(st, k).parent) && Doomed(st, i, At(st, k).parent)
                                then At(st, k).(links := 0) else At(st, k))
            && FreeGrew(st, st')
  {
    var st' := Delete(st, i);
    DeleteSwept(st, i, {});
    forall k | Live(st, k) ensures Freed(st, st', k) <==> Doomed(st, i, k) {
      if Freed(st, st', k) {
        var rank: nat -> nat :| Ranked(st, rank);
        FreedAreDoomed(st, st', rank, i, k);
      }
      if Doomed(st, i, k) {
        var steps: nat :| DoomedIn(st, i, k, steps);
        DoomedAreFreed(st, st', i, k, steps);
      }
    }
    forall k | Live(st, k) && !Doomed(st, i, k)
      ensures Live(st', k)
      ensures At(st', k) == if Linked(st, k) && Live(st, At(st, k).parent) && Doomed(st, i, At(st, k).parent)
                            then At(st, k).(links := 0) else At(st, k)
    {
      assert !Freed(st, st', k) && KeptRight(st, st', {}, k);
      if Linked(st, k) { assert GoodChild(st, At(st, k).parent, k); }
    }
  }

  // ----- each kind of update keeps the invariant

  /** A table whose names are among those of `st` is as acyclic. */
  lemma FewerNames(st: State, st': State)
    requires Acyclic(st)
    requires forall d, n :: n in FilesOf(st', d) ==> n in FilesOf(st, d) && FilesOf(st', d)[n] == FilesOf(st, d)[n]
    ensures Acyclic(st')
  {
    var rank: nat -> nat :| Ranked(st, rank);
    assert Ranked(st', rank);
  }

  lemma CountChanged(st: State, held: multiset<nat>, i: nat, lookups: nat)
    requires Inv(st, held) && Live(st, i)
    ensures Inv(Put(st, i, At(st, i).(lookups := lookups)), held[i := lookups])
  {
    var st' := Put(st, i, At(st, i).(lookups := lookups));
    CountsOnly(st, i, At(st, i).(lookups := lookups));
    LookupsOnly(st, i, lookups, {});
    FewerNames(st, st');
    assert forall k :: 0 <= k < |st.entries| ==> (st'.entries[k].None? <==> st.entries[k].None?);
  }

  lemma AddLookupKeeps(st: State, held: multiset<nat>, i: nat)
    requires Inv(st, held) && Live(st, i)
    ensures Inv(AddLookup(st, i), held + multiset{i})
  {
    CountChanged(st, held, i, At(st, i).lookups + 1);
    assert held + multiset{i} == held[i := At(st, i).lookups + 1];
  }

  lemma DeleteKeeps(st: State, held: multiset<nat>, i: nat)
    requires Inv(st, held) && Live(st, i) && At(st, i).links == 0 && At(st, i).lookups == 0
    ensures Inv(Delete(st, i), held)
  {
    var st' := Delete(st, i);
    DeleteSwept(st, i, {});
    forall k ensures held[k] == if Live(st', k) then At(st', k).lookups else 0 {
      if Live(st', k) { assert KeptRight(st, st', {}, k); }
      else if Live(st, k) { assert FreedRight(st, st', {}, {i}, k); }
    }
    SweptFreeExact(st, st', i);
    forall d, n | n in FilesOf(st', d) ensures n in FilesOf(st, d) && FilesOf(st', d)[n] == FilesOf(st, d)[n] {
      assert KeptRight(st, st', {}, d);
    }
    FewerNames(st, st');
  }

  lemma SweptFreeExact(st: State, st': State, i: nat)
    requires FreeExact(st) && Structure(st, {}) && Swept(st, st', {}, {i}) && Live(st, i) && At(st, i).links == 0
    ensures FreeExact(st')
  {
    var s := st'.free[|st.free|..];
    assert st'.free == st.free + s;
    forall k: nat ensures k in st'.free <==> 2 <= k < |st'.entries| && st'.entries[k].None? {
      assert k in st'.free <==> k in st.free || k in s;
      if Freed(st, st', k) {
        assert FreedRight(st, st', {}, {i}, k);
        if k != i { assert GoodChild(st, At(st, k).parent, k); }
      }
    }
    forall a, b | 0 <= a < b < |st'.free| ensures st'.free[a] != st'.free[b] {
      if a < |st.free| <= b {
        assert st'.free[a] in st.free && st'.free[b] in s;
      } else if |st.free| <= a {
        assert st'.free[a] == s[a - |st.free|] && st'.free[b] == s[b - |st.free|];
      }
    }
  }

  lemma OtherForgetStays(st: State, i: nat, n: nat)
    requires Live(st, i) && (At(st, i).lookups > 1 || At(st, i).links != 0) && n <= At(st, i).lookups
    ensures ForgetEntry(st, i, n) == Put(st, i, At(st, i).(lookups := At(st, i).lookups - n))
  {
  }

  lemma LastForgetDeletes(st: State, i: nat, n: nat)
    requires Live(st, i) && At(st, i).lookups <= 1 && At(st, i).links == 0 && n <= At(st, i).lookups
    ensures ForgetEntry(st, i, n) == Delete(Put(st, i, At(st, i).(lookups := At(st, i).lookups - n)), i)
  {
  }

  /** The counts allow deletion: it is right exactly if they are all returned. */
  lemma LastForgetExactly(st: State, held: multiset<nat>, i: nat, n: nat)
    requires Inv(st, held) && Live(st, i) && n <= held[i] && At(st, i).lookups <= 1 && At(st, i).links == 0
    ensures var st1 := Put(st, i, At(st, i).(lookups := At(st, i).lookups - n));
            Inv(Delete(st1, i), held[i := held[i] - n]) <==> n == At(st, i).lookups
  {
    var st1 := Put(st, i, At(st, i).(lookups := At(st, i).lookups - n));
    var held' := held[i := held[i] - n];
    CountChanged(st, held, i, At(st, i).lookups - n);
    if At(st, i).lookups == n {
      DeleteKeeps(st1, held', i);
    } else {
      FreedIsNotHeld(Delete(st1, i), held', i);
    }
  }

  lemma FreedIsNotHeld(st: State, held: multiset<nat>, i: nat)
    requires !Live(st, i) && held[i] > 0
    ensures !Inv(st, held)
  {
    assert Counted(st, held) ==> held[i] == 0;
  }

  lemma ForgottenIsSound(st: State, held: multiset<nat>, i: nat, n: nat)
    requires Inv(st, held) && Live(st, i) && n <= held[i]
    ensures n <= At(st, i).lookups
    ensures Inv(Put(st, i, At(st, i).(lookups := At(st, i).lookups - n)), held[i := held[i] - n])
  {
    HeldAreLookups(st, held, i);
    CountChanged(st, held, i, At(st, i).lookups - n);
  }

  /** Returning counts: legal amounts keep the invariant, and an amount of zero breaks it exactly when
      it frees an entry that one holder still uses. */
  lemma ForgetExactly(st: State, held: multiset<nat>, i: nat, n: nat)
    requires Inv(st, held) && Live(st, i) && n <= held[i]
    ensures Inv(ForgetEntry(st, i, n), held[i := held[i] - n]) <==>
              !(n == 0 && At(st, i).lookups == 1 && At(st, i).links == 0)
  {
    HeldAreLookups(st, held, i);
    if At(st, i).lookups <= 1 && At(st, i).links == 0 {
      LastForgetDeletes(st, i, n);
      LastForgetExactly(st, held, i, n);
    } else {
      OtherForgetStays(st, i, n);
      ForgottenIsSound(st, held, i, n);
    }
  }

  lemma HeldAreLookups(st: State, held: multiset<nat>, i: nat)
    requires Counted(st, held) && Live(st, i)
    ensures held[i] == At(st, i).lookups
  {
  }

  /** Returning counts leaks an entry exactly when more than one is returned at once and they are the
      last of an unlinked entry. */
  lemma ForgetLeaksExactly(st: State, i: nat, n: nat)
    requires Structure(st, {}) && NoLeak(st) && Live(st, i) && 1 <= n <= At(st, i).lookups
    ensures NoLeak(ForgetEntry(st, i, n)) <==> !(n >= 2 && n == At(st, i).lookups && At(st, i).links == 0)
  {
    if At(st, i).lookups <= 1 && At(st, i).links == 0 {
      LastForgetLeaksNothing(st, i, n);
    } else {
      OtherForgetLeaksExactly(st, i, n);
    }
  }

  /** Where the counts allow deletion, everything goes that nobody counts. */
  lemma LastForgetLeaksNothing(st: State, i: nat, n: nat)
    requires Structure(st, {}) && NoLeak(st) && Live(st, i) && n <= At(st, i).lookups <= 1 && At(st, i).links == 0
    ensures NoLeak(ForgetEntry(st, i, n))
  {
    var lookups := At(st, i).lookups - n;
    CountLeaks(st, i, lookups);
    LookupsOnly(st, i, lookups, {});
    DeleteLeaksNothing(Put(st, i, At(st, i).(lookups := lookups)), i);
    LastForgetDeletes(st, i, n);
  }

  /** Where they do not, the counts left decide. */
  lemma OtherForgetLeaksExactly(st: State, i: nat, n: nat)
    requires NoLeak(st) && Live(st, i) && n <= At(st, i).lookups
    requires At(st, i).lookups > 1 || At(st, i).links != 0
    ensures NoLeak(ForgetEntry(st, i, n)) <==> At(st, i).lookups > n || At(st, i).links > 0
  {
    CountLeaks(st, i, At(st, i).lookups - n);
    OtherForgetStays(st, i, n);
  }

  lemma CountLeaks(st: State, i: nat, lookups: nat)
    requires NoLeak(st) && Live(st, i)
    ensures var st1 := Put(st, i, At(st, i).(lookups := lookups));
            && (NoLeak(st1) <==> lookups > 0 || At(st, i).links > 0)
            && (forall k :: Live(st1, k) && k != i ==> At(st1, k).lookups > 0 || At(st1, k).links > 0)
  {
    var st1 := Put(st, i, At(st, i).(lookups := lookups));
    assert forall k :: Live(st1, k) && k != i ==> Live(st, k) && At(st1, k) == At(st, k);
    assert Live(st1, i);
  }

  lemma DeleteLeaksNothing(st: State, i: nat)
    requires Structure(st, {}) && Live(st, i) && At(st, i).links == 0
    requires forall k :: Live(st, k) && k != i ==> At(st, k).lookups > 0 || At(st, k).links > 0
    ensures NoLeak(Delete(st, i))
  {
    var st' := Delete(st, i);
    DeleteSwept(st, i, {});
    forall k | Live(st', k) ensures At(st', k).lookups > 0 || At(st', k).links > 0 {
      assert KeptRight(st, st', {}, k) && FreedRight(st, st', {}, {i}, k);
    }
  }

  lemma DropGuardKeeps(st: State, held: multiset<nat>, i: nat)
    requires Inv(st, held) && i in held
    ensures Live(st, i) && Inv(DropGuard(st, i), held - multiset{i})
    ensures NoLeak(st) ==> NoLeak(DropGuard(st, i))
  {
    ForgetExactly(st, held, i, 1);
    assert held - multiset{i} == held[i := held[i] - 1];
    if NoLeak(st) { ForgetLeaksExactly(st, i, 1); }
  }
}
