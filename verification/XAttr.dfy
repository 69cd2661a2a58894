/** The list of attribute names (src/requests.rs, `ListXAttr`). */
module XAttrList {
  import opened Bytes
  import opened Protocol
  import opened Packing

  /** Names one behind the other, each ended by a NUL. */
  function Concatenated(names: seq<Name>): seq<byte>
  {
    if names == [] then [] else Concatenated(names[..|names| - 1]) + names[|names| - 1] + [0]
  }

  /** The names of a list: what is between NULs. None if the last one has no end. */
  function Split(list: seq<byte>): Option<seq<Name>>
    decreases |list|
  {
    if list == [] then Some([])
    else
      var n := NulPos(list);
      if n == |list| then None
      else match Split(list[n + 1..])
        case None => None
        case Some(rest) => Some([list[..n]] + rest)
  }

  predicate EachNulFree(names: seq<Name>)
  {
    forall i :: 0 <= i < |names| ==> NulFree(names[i])
  }

  lemma {:induction false} ConcatenatedAdd(a: seq<Name>, b: seq<Name>)
    ensures Concatenated(a + b) == Concatenated(a) + Concatenated(b)
  {
    if b == [] {
      assert a + b == a;
    } else {
      assert (a + b)[..|a + b| - 1] == a + b[..|b| - 1];
      ConcatenatedAdd(a, b[..|b| - 1]);
    }
  }

  lemma ConcatenatedCons(name: Name, rest: seq<Name>)
    ensures Concatenated([name] + rest) == name + [0] + Concatenated(rest)
  {
    ConcatenatedAdd([name], rest);
    assert [name][..0] == [];
    assert Concatenated([name]) == name + [0];
  }

  lemma SplitCons(name: Name, rest: seq<byte>)
    requires NulFree(name)
    ensures Split(name + [0] + rest) == match Split(rest) case None => None case Some(more) => Some([name] + more)
  {
    var list := name + [0] + rest;
    NulPosOfTerminated(name, rest);
    assert list[..|name|] == name && list[|name| + 1..] == rest;
  }

  lemma {:induction false} SplitConcatenated(names: seq<Name>)
    requires EachNulFree(names)
    ensures Split(Concatenated(names)) == Some(names)
  {
    if names != [] {
      var rest := names[1..];
      assert names == [names[0]] + rest;
      SplitConcatenated(rest);
      ConcatenatedCons(names[0], rest);
      SplitCons(names[0], Concatenated(rest));
    }
  }

  lemma {:induction false} SplitIsNulFree(list: seq<byte>)
    ensures Split(list).Some? ==> EachNulFree(Split(list).value)
    decreases |list|
  {
    if list != [] && NulPos(list) < |list| { SplitIsNulFree(list[NulPos(list) + 1..]); }
  }

  /** Splitting a list at its NULs gives the names back exactly if none of them holds a NUL. */
  lemma SplitGivesNames(names: seq<Name>)
    ensures Split(Concatenated(names)) == Some(names) <==> EachNulFree(names)
  {
    SplitIsNulFree(Concatenated(names));
    if EachNulFree(names) { SplitConcatenated(names); }
  }

  /** The names that go in when all of `offered` are added in turn; one that does not fit is left out. */
  function Accepted(size: nat, offered: seq<Name>): seq<Name>
  {
    if offered == [] then []
    else
      var before, name := Accepted(size, offered[..|offered| - 1]), offered[|offered| - 1];
      if |Concatenated(before)| + |name| + 1 <= size then before + [name] else before
  }

  /** Whatever is added, the list fits, and it reads back as the accepted names in order. */
  lemma {:induction false} AcceptedReadBack(size: nat, offered: seq<Name>)
    requires EachNulFree(offered)
    ensures |Concatenated(Accepted(size, offered))| <= size
    ensures Split(Concatenated(Accepted(size, offered))) == Some(Accepted(size, offered))
    ensures forall i :: 0 <= i < |Accepted(size, offered)| ==> Accepted(size, offered)[i] in offered
  {
    AcceptedFits(size, offered);
    SplitConcatenated(Accepted(size, offered));
  }

  lemma {:induction false} AcceptedFits(size: nat, offered: seq<Name>)
    requires EachNulFree(offered)
    ensures |Concatenated(Accepted(size, offered))| <= size && EachNulFree(Accepted(size, offered))
    ensures forall i :: 0 <= i < |Accepted(size, offered)| ==> Accepted(size, offered)[i] in offered
  {
    if offered != [] {
      var prefix, name := offered[..|offered| - 1], offered[|offered| - 1];
      AcceptedFits(size, prefix);
      var before := Accepted(size, prefix);
      assert (before + [name])[..|before|] == before;
      forall i | 0 <= i < |Accepted(size, offered)| ensures Accepted(size, offered)[i] in offered {
        if i < |before| { assert before[i] in prefix; }
      }
    }
  }

  /** What does not fit leaves the list as it is, and everything fits if the kernel asks for enough. */
  lemma {:induction false} AllAccepted(size: nat, offered: seq<Name>)
    ensures |Concatenated(offered)| <= size <==> Accepted(size, offered) == offered
  {
    if offered != [] {
      var prefix, name := offered[..|offered| - 1], offered[|offered| - 1];
      AllAccepted(size, prefix);
      AcceptedShorter(size, prefix);
      assert offered == prefix + [name];
    }
  }

  lemma {:induction false} AcceptedShorter(size: nat, offered: seq<Name>)
    ensures |Accepted(size, offered)| <= |offered|
  {
    if offered != [] { AcceptedShorter(size, offered[..|offered| - 1]); }
  }

  class ListXAttr {
    const size: nat
    var response: seq<byte>
    /** The names added so far, in turn, whether they fit or not. */
    ghost var offered: seq<Name>

    ghost predicate Valid()
      reads this
    {
      |response| <= size
    }

    /** The list is made of the names added; a raw reply, or bytes without their NUL, end that. */
    ghost predicate Listed()
      reads this
    {
      response == Concatenated(Accepted(size, offered))
    }

    constructor (size: nat)
      ensures Valid() && Listed() && this.size == size && offered == []
    {
      this.size := size;
      response := [];
      offered := [];
    }

    /** `check_add` */
    predicate CheckAdd(len: nat)
      reads this
    {
      |response| + len <= size
    }

    /** `add` and `add_bytes_without_zero` */
    method Add(name: Name) returns (r: ReplyBufState)
      requires Valid()
      modifies this
      ensures Valid() && offered == old(offered) + [name] && (old(Listed()) ==> Listed())
      ensures r == Full <==> |old(response)| + |name| + 1 > size
      ensures response == if r == Full then old(response) else old(response) + name + [0]
    {
      OfferOne(size, offered, name);
      offered := offered + [name];
      if !CheckAdd(|name| + 1) { return Full; }
      response := response + name;
      response := response + [0];
      return Added;
    }

    /** `add_bytes_with_zero`: appends whatever it is given, meant to be one name with its NUL. */
    method AddWithZero(bytes: seq<byte>) returns (r: ReplyBufState)
      requires Valid()
      modifies this
      ensures Valid()
      ensures r == Full <==> |old(response)| + |bytes| > size
      ensures response == if r == Full then old(response) else old(response) + bytes
      ensures bytes != [] && bytes[|bytes| - 1] == 0 ==>
                offered == old(offered) + [bytes[..|bytes| - 1]] && (old(Listed()) ==> Listed())
    {
      ghost var name := if bytes == [] then [] else bytes[..|bytes| - 1];
      OfferOne(size, offered, name);
      assert bytes != [] && bytes[|bytes| - 1] == 0 ==> bytes == name + [0];
      offered := offered + [name];
      if !CheckAdd(|bytes|) { return Full; }
      assert bytes == name + [0] ==> response + bytes == response + name + [0];
      response := response + bytes;
      return Added;
    }

    /** `add_c_string` */
    method AddCString(name: Name) returns (r: ReplyBufState)
      requires Valid() && NulFree(name)
      modifies this
      ensures Valid() && offered == old(offered) + [name] && (old(Listed()) ==> Listed())
      ensures r == Full <==> |old(response)| + |name| + 1 > size
      ensures response == if r == Full then old(response) else old(response) + name + [0]
    {
      assert (name + [0])[..|name|] == name;
      assert response + (name + [0]) == response + name + [0];
      r := AddWithZero(name + [0]);
    }

    /** `set_raw_reply`: data that is too large comes back. */
    method SetRawReply(data: seq<byte>) returns (rejected: Option<seq<byte>>)
      requires Valid()
      modifies this`response
      ensures Valid()
      ensures rejected == if |data| > size then Some(data) else None
      ensures response == if |data| > size then old(response) else data
    {
      if |data| > size { return Some(data); }
      response := data;
      return None;
    }
  }

  lemma OfferOne(size: nat, offered: seq<Name>, name: Name)
    ensures var before := Accepted(size, offered);
            Concatenated(Accepted(size, offered + [name])) ==
              if |Concatenated(before)| + |name| + 1 <= size then Concatenated(before) + name + [0]
              else Concatenated(before)
  {
    var before := Accepted(size, offered);
    assert (offered + [name])[..|offered|] == offered;
    assert (before + [name])[..|before|] == before;
  }
}
