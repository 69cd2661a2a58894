/** The iteration order of `BTreeMap<OsString, _>`: names by their bytes, lexicographically. */
module BTree {
  import opened Protocol

  predicate Less(a: Name, b: Name)
  {
    b != [] && (a == [] || a[0] < b[0] || (a[0] == b[0] && Less(a[1..], b[1..])))
  }

  lemma {:induction false} LessTotal(a: Name, b: Name)
    ensures a == b || Less(a, b) || Less(b, a)
  {
    if a != [] && b != [] && a[0] == b[0] {
      LessTotal(a[1..], b[1..]);
      assert a == [a[0]] + a[1..] && b == [b[0]] + b[1..];
    }
  }

  lemma {:induction false} LessTransitive(a: Name, b: Name, c: Name)
    requires Less(a, b) && Less(b, c)
    ensures Less(a, c)
  {
    if a != [] && a[0] == b[0] == c[0] {
      LessTransitive(a[1..], b[1..], c[1..]);
    }
  }

  predicate IsLeast(m: Name, s: set<Name>)
  {
    m in s && forall x :: x in s && x != m ==> Less(m, x)
  }

  lemma {:induction false} LeastExists(s: set<Name>)
    requires s != {}
    ensures exists m :: IsLeast(m, s)
    decreases |s|
  {
    var x :| x in s;
    var rest := s - {x};
    if rest == {} {
      assert s == {x} + rest == {x};
      assert IsLeast(x, s);
    } else {
      LeastExists(rest);
      var m :| IsLeast(m, rest);
      LessTotal(x, m);
      if Less(x, m) {
        forall y | y in s && y != x ensures Less(x, y) {
          if y != m { LessTransitive(x, m, y); }
        }
        assert IsLeast(x, s);
      } else {
        assert IsLeast(m, s);
      }
    }
  }

  lemma {:induction false} LessIrreflexive(a: Name)
    ensures !Less(a, a)
  {
    if a != [] { LessIrreflexive(a[1..]); }
  }

  lemma LeastUnique(m: Name, n: Name, s: set<Name>)
    requires IsLeast(m, s) && IsLeast(n, s)
    ensures m == n
  {
    if m != n {
      LessTransitive(m, n, m);
      LessIrreflexive(m);
    }
  }

  /** The names of a set in order. */
  ghost function SortedNames(s: set<Name>): (r: seq<Name>)
    ensures |r| == |s|
    ensures forall n :: n in r <==> n in s
    ensures forall i, j :: 0 <= i < j < |r| ==> Less(r[i], r[j])
    decreases |s|
  {
    if s == {} then []
    else
      LeastExists(s);
      var m :| IsLeast(m, s);
      [m] + SortedNames(s - {m})
  }

  lemma SortedNamesDistinct(s: set<Name>)
    ensures forall i, j :: 0 <= i < j < |SortedNames(s)| ==> SortedNames(s)[i] != SortedNames(s)[j]
  {
    var r := SortedNames(s);
    forall i, j | 0 <= i < j < |r| ensures r[i] != r[j] {
      LessIrreflexive(r[i]);
    }
  }

  /** `r` holds exactly the names of `s`, in strictly increasing order. */
  ghost predicate Enumerates(s: set<Name>, r: seq<Name>)
  {
    && (forall n :: n in r <==> n in s)
    && forall i, j :: 0 <= i < j < |r| ==> Less(r[i], r[j])
  }

  lemma FirstIsLeast(s: set<Name>, r: seq<Name>)
    requires Enumerates(s, r) && r != []
    ensures IsLeast(r[0], s)
  {
    assert r[0] in r;
    forall y | y in s && y != r[0] ensures Less(r[0], y) {
      assert y in r;
    }
  }

  lemma FirstsAgree(s: set<Name>, r: seq<Name>, r': seq<Name>)
    requires Enumerates(s, r) && Enumerates(s, r') && r != []
    ensures r[0] in s && r' != [] && r'[0] == r[0]
  {
    assert r[0] in r && r[0] in r';
    FirstIsLeast(s, r);
    FirstIsLeast(s, r');
    LeastUnique(r[0], r'[0], s);
  }

  lemma TailEnumerates(s: set<Name>, r: seq<Name>)
    requires Enumerates(s, r) && r != []
    ensures Enumerates(s - {r[0]}, r[1..])
  {
    forall n ensures n in r[1..] <==> n in s - {r[0]} {
      if n in r[1..] {
        var i :| 1 <= i < |r| && r[i] == n;
        LessIrreflexive(r[0]);
      }
    }
  }

  lemma SortedEnumerates(s: set<Name>)
    ensures Enumerates(s, SortedNames(s))
  {
  }

  /** Any strictly increasing enumeration of the keys is the iteration order. */
  lemma {:induction false} SortedNamesUnique(s: set<Name>, r: seq<Name>)
    requires Enumerates(s, r)
    ensures r == SortedNames(s)
    decreases |r|
  {
    SortedEnumerates(s);
    if r == [] {
      if SortedNames(s) != [] { FirstsAgree(s, SortedNames(s), r); }
    } else {
      FirstsAgree(s, r, SortedNames(s));
      TailEnumerates(s, r);
      SortedNamesUnique(s - {r[0]}, r[1..]);
      SortedTail(s);
      assert r == [r[0]] + r[1..];
    }
  }

  lemma SortedTail(s: set<Name>)
    requires s != {}
    ensures SortedNames(s)[1..] == SortedNames(s - {SortedNames(s)[0]})
  {
    assert SortedNames(s) == [SortedNames(s)[0]] + SortedNames(s - {SortedNames(s)[0]});
  }

  /** The iterator. */
  method KeysInOrder(s: set<Name>) returns (order: seq<Name>)
    ensures order == SortedNames(s)
  {
    order := [];
    var rest := s;
    while rest != {}
      invariant rest <= s
      invariant forall n :: n in order <==> n in s && n !in rest
      invariant forall i, j :: 0 <= i < j < |order| ==> Less(order[i], order[j])
      invariant forall i, n :: 0 <= i < |order| && n in rest ==> Less(order[i], n)
      decreases |rest|
    {
      LeastExists(rest);
      var m :| m in rest && IsLeast(m, rest);
      order := order + [m];
      rest := rest - {m};
    }
    SortedNamesUnique(s, order);
  }
}
