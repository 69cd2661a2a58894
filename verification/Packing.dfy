/** Packing directory entries into the reply buffer (src/sys.rs), and unpacking them. */
module Packing {
  import opened Bytes
  import opened Protocol

  /** `Added` is the `Ok` of the source. */
  datatype ReplyBufState = Added | Full

  /** One directory entry. A `Record` puts a head before it: nothing for readdir, an encoded
      `fuse_entry_out` for readdirplus. */
  datatype Dirent = Dirent(ino: u64, off: u64, typ: u32, name: Name)
  datatype Record = Record(head: seq<byte>, entry: Dirent)

  function Align(x: nat): (r: nat)
    ensures x <= r < x + 8 && r % 8 == 0
  {
    (x + 7) / 8 * 8
  }

  const DIRENT_HEADER_SIZE := 24
  const ENTRY_OUT_SIZE := 128

  function DirentSize(namelen: nat): nat
  {
    Align(DIRENT_HEADER_SIZE + namelen)
  }

  function DirentPlusSize(namelen: nat): nat
  {
    Align(ENTRY_OUT_SIZE + DIRENT_HEADER_SIZE + namelen)
  }

  /** The type bits of `st_mode`. */
  function ModeToDirentType(mode: u32): (t: u32)
    ensures t < 16
  {
    mode / 4096 % 16
  }

  /** The fixed part; the name length is truncated to 32 bits. */
  function DirentHeader(d: Dirent): (s: seq<byte>)
    ensures |s| == DIRENT_HEADER_SIZE
  {
    Pack(DIRENT, [d.ino, d.off, Wrap32(|d.name|), d.typ])
  }

  function Padding(namelen: nat): (s: seq<byte>)
    ensures |s| == DirentSize(namelen) - DIRENT_HEADER_SIZE - namelen && |s| < 8
  {
    Zeros(DirentSize(namelen) - DIRENT_HEADER_SIZE - namelen)
  }

  function DirentBytes(d: Dirent): (s: seq<byte>)
    ensures |s| == DirentSize(|d.name|)
  {
    DirentHeader(d) + d.name + Padding(|d.name|)
  }

  /** What the filled part of a buffer holding these records looks like. */
  function Encode(rs: seq<Record>): seq<byte>
  {
    if rs == [] then [] else RecordBytes(rs[0]) + Encode(rs[1..])
  }

  function RecordBytes(r: Record): seq<byte>
  {
    r.head + DirentBytes(r.entry)
  }

  lemma {:induction false} EncodeAppend(rs: seq<Record>, r: Record)
    ensures Encode(rs + [r]) == Encode(rs) + RecordBytes(r)
  {
    if rs == [] {
      assert [r][1..] == [];
    } else {
      assert (rs + [r])[1..] == rs[1..] + [r];
      EncodeAppend(rs[1..], r);
    }
  }

  lemma EncodeAppendParts(rs: seq<Record>, head: seq<byte>, d: Dirent)
    ensures Encode(rs + [Record(head, d)]) == (Encode(rs) + head) + DirentBytes(d)
  {
    EncodeAppend(rs, Record(head, d));
  }

  // ----- reading a buffer back

  /** One entry at the front of `s`, and how many bytes it takes. */
  function DecodeDirent(s: seq<byte>): (r: Option<(Dirent, nat)>)
    ensures r.Some? ==> DIRENT_HEADER_SIZE <= r.value.1 <= |s|
    ensures r.Some? ==> r.value.1 == DirentSize(|r.value.0.name|) && |r.value.0.name| < 0x1_0000_0000
  {
    if |s| < DIRENT_HEADER_SIZE then None
    else
      var h := Unpack(DIRENT, s);
      UnpackRepresentable(DIRENT, s);
      DirentFieldBounds(h);
      var n := h[2];
      if |s| < DirentSize(n) then None
      else if s[DIRENT_HEADER_SIZE + n..DirentSize(n)] != Padding(n) then None
      else Some((Dirent(h[0], h[1], h[3], s[DIRENT_HEADER_SIZE..DIRENT_HEADER_SIZE + n]), DirentSize(n)))
  }

  lemma DirentFieldBounds(h: seq<nat>)
    requires |h| == 4
    ensures Representable(DIRENT, h) <==>
              h[0] < 0x1_0000_0000_0000_0000 && h[1] < 0x1_0000_0000_0000_0000
              && h[2] < 0x1_0000_0000 && h[3] < 0x1_0000_0000
  {
    assert Pow256(4) == 0x1_0000_0000 && Pow256(8) == 0x1_0000_0000_0000_0000;
    var l1 := U64(U32(U32(End)));
    var l2 := U32(U32(End));
    var l3 := U32(End);
    assert Representable(DIRENT, h) <==> h[0] < Pow256(8) && Representable(l1, h[1..]);
    assert h[1..][0] == h[1] && h[1..][1..] == h[2..];
    assert h[2..][0] == h[2] && h[2..][1..] == h[3..];
    assert h[3..][0] == h[3] && h[3..][1..] == [];
    assert Representable(l1, h[1..]) <==> h[1] < Pow256(8) && Representable(l2, h[2..]);
    assert Representable(l2, h[2..]) <==> h[2] < Pow256(4) && Representable(l3, h[3..]);
    assert Representable(l3, h[3..]) <==> h[3] < Pow256(4);
  }

  /** All records of a buffer whose entries carry a head of `headSize` bytes. */
  function Decode(headSize: nat, s: seq<byte>): Option<seq<Record>>
    decreases |s|
  {
    if s == [] then Some([])
    else if |s| < headSize then None
    else match DecodeDirent(s[headSize..])
      case None => None
      case Some((d, n)) =>
        match Decode(headSize, s[headSize + n..])
        case None => None
        case Some(rest) => Some([Record(s[..headSize], d)] + rest)
  }

  predicate ShortName(r: Record)
  {
    |r.entry.name| < 0x1_0000_0000
  }

  predicate AllShort(rs: seq<Record>)
  {
    forall i :: 0 <= i < |rs| ==> ShortName(rs[i])
  }

  predicate Uniform(headSize: nat, rs: seq<Record>)
  {
    forall i :: 0 <= i < |rs| ==> |rs[i].head| == headSize
  }

  lemma DecodeDirentBytes(d: Dirent, tail: seq<byte>)
    requires |d.name| < 0x1_0000_0000
    ensures DecodeDirent(DirentBytes(d) + tail) == Some((d, DirentSize(|d.name|)))
  {
    var s := DirentBytes(d) + tail;
    EntrySlices(DirentHeader(d), d.name, Padding(|d.name|), tail);
    HeaderUnpacks(d, d.name + Padding(|d.name|) + tail);
    assert s == DirentHeader(d) + (d.name + Padding(|d.name|) + tail);
  }

  lemma HeaderUnpacks(d: Dirent, after: seq<byte>)
    requires |d.name| < 0x1_0000_0000
    ensures Unpack(DIRENT, DirentHeader(d) + after) == [d.ino, d.off, |d.name|, d.typ]
  {
    DirentFieldBounds([d.ino, d.off, |d.name|, d.typ]);
    UnpackPack(DIRENT, [d.ino, d.off, |d.name|, d.typ], after);
  }

  /** The entry by its bytes: inode, next offset, length of the name and type, the name, and zeros up to the
      next multiple of eight. */
  lemma DirentByBytes(d: Dirent)
    requires |d.name| < 0x1_0000_0000
    ensures var s, n := DirentBytes(d), |d.name|;
            && 24 + n <= |s| < 24 + n + 8 && |s| % 8 == 0
            && Int64(s, 0) == d.ino && Int64(s, 8) == d.off && Int32(s, 16) == n && Int32(s, 20) == d.typ
            && s[24..24 + n] == d.name && forall k :: 24 + n <= k < |s| ==> s[k] == 0
  {
    var s, padding := DirentBytes(d), Padding(|d.name|);
    assert s == DirentHeader(d) + (d.name + padding);
    HeaderUnpacks(d, d.name + padding);
    HeaderInts(s);
    EntrySlices(DirentHeader(d), d.name, padding, []);
    assert DirentHeader(d) + d.name + padding + [] == s;
  }

  lemma HeaderInts(s: seq<byte>)
    requires |s| >= 24
    ensures SizeOf(DIRENT) == 24
    ensures Unpack(DIRENT, s) == [Int64(s, 0), Int64(s, 8), Int32(s, 16), Int32(s, 20)]
  {
    var f := Unpack(DIRENT, s);
    StructAt(DIRENT, s);
    PairAt(f, 2, DIRENT.rest.rest, s, 16);
    assert |f| == 4;
  }

  lemma EntrySlices(header: seq<byte>, name: seq<byte>, padding: seq<byte>, tail: seq<byte>)
    ensures var s, h, n := header + name + padding + tail, |header|, |name|;
            s[h..h + n] == name && s[h + n..h + n + |padding|] == padding
  {
  }

  /** The round trip: a packed buffer reads back as exactly the records put in, in order, precisely
      when every name length fits its 32-bit field. */
  lemma {:induction false} DecodeEncode(headSize: nat, rs: seq<Record>)
    requires Uniform(headSize, rs)
    ensures Decode(headSize, Encode(rs)) == Some(rs) <==> AllShort(rs)
  {
    DecodedNamesShort(headSize, Encode(rs));
    if AllShort(rs) {
      DecodeEncodeShort(headSize, rs);
    }
  }

  /** Decoding steps over one whole record. */
  lemma DecodeRecord(headSize: nat, r: Record, more: seq<byte>)
    requires |r.head| == headSize && ShortName(r)
    ensures Decode(headSize, RecordBytes(r) + more) ==
              match Decode(headSize, more) case None => None case Some(rest) => Some([r] + rest)
  {
    var s, size := RecordBytes(r) + more, DirentSize(|r.entry.name|);
    DecodeDirentBytes(r.entry, more);
    RecordSlices(r.head, DirentBytes(r.entry), more);
    assert s == r.head + (DirentBytes(r.entry) + more);
  }

  lemma RecordSlices(head: seq<byte>, body: seq<byte>, more: seq<byte>)
    ensures var s := head + (body + more);
            s[..|head|] == head && s[|head|..] == body + more && s[|head| + |body|..] == more
  {
  }

  lemma {:induction false} DecodeEncodeShort(headSize: nat, rs: seq<Record>)
    requires Uniform(headSize, rs) && AllShort(rs)
    ensures Decode(headSize, Encode(rs)) == Some(rs)
  {
    if rs != [] {
      assert ShortName(rs[0]);
      DecodeRecord(headSize, rs[0], Encode(rs[1..]));
      DecodeEncodeShort(headSize, rs[1..]);
      assert rs == [rs[0]] + rs[1..];
    }
  }

  lemma {:induction false} DecodedNamesShort(headSize: nat, s: seq<byte>)
    ensures Decode(headSize, s).Some? ==> AllShort(Decode(headSize, s).value)
    decreases |s|
  {
    if s != [] && |s| >= headSize && DecodeDirent(s[headSize..]).Some? {
      DecodedNamesShort(headSize, s[headSize + DecodeDirent(s[headSize..]).value.1..]);
    }
  }

  lemma EncodeCons(head: seq<byte>, d: Dirent, rs: seq<Record>)
    ensures Encode([Record(head, d)] + rs) == head + DirentBytes(d) + Encode(rs)
  {
    assert ([Record(head, d)] + rs)[1..] == rs;
  }

  lemma Reassemble(s: seq<byte>, a: nat, n: nat)
    requires a + n <= |s|
    ensures s[..a] + s[a..][..n] + s[a + n..] == s
  {
  }

  /** And the other way: any bytes that decode are the packing of what they decode to. */
  lemma {:induction false} EncodeDecode(headSize: nat, s: seq<byte>)
    requires Decode(headSize, s).Some?
    ensures Uniform(headSize, Decode(headSize, s).value)
    ensures Encode(Decode(headSize, s).value) == s
    decreases |s|
  {
    if s != [] {
      var (d, n) := DecodeDirent(s[headSize..]).value;
      var rest := Decode(headSize, s[headSize + n..]).value;
      EncodeDecode(headSize, s[headSize + n..]);
      EncodeDecodedDirent(s[headSize..]);
      EncodeCons(s[..headSize], d, rest);
      Reassemble(s, headSize, n);
    }
  }

  lemma EncodeDecodedDirent(s: seq<byte>)
    requires DecodeDirent(s).Some?
    ensures DirentBytes(DecodeDirent(s).value.0) == s[..DecodeDirent(s).value.1]
  {
    var d, size := DecodeDirent(s).value.0, DecodeDirent(s).value.1;
    var n := |d.name|;
    DecodedHeader(s);
    assert s[..size] == s[..DIRENT_HEADER_SIZE] + s[DIRENT_HEADER_SIZE..DIRENT_HEADER_SIZE + n]
                        + s[DIRENT_HEADER_SIZE + n..size];
  }

  lemma DecodedHeader(s: seq<byte>)
    requires DecodeDirent(s).Some?
    ensures DirentHeader(DecodeDirent(s).value.0) == s[..DIRENT_HEADER_SIZE]
  {
    HeaderRepacks(s, DecodeDirent(s).value.0);
  }

  lemma HeaderRepacks(s: seq<byte>, d: Dirent)
    requires |s| >= DIRENT_HEADER_SIZE && Unpack(DIRENT, s) == [d.ino, d.off, |d.name|, d.typ]
    requires |d.name| < 0x1_0000_0000
    ensures DirentHeader(d) == s[..DIRENT_HEADER_SIZE]
  {
    PackUnpack(DIRENT, s[..DIRENT_HEADER_SIZE]);
    UnpackPrefix(DIRENT, s);
  }

  /** The size computed for a readdirplus entry is that of its two parts. */
  lemma PlusSize(namelen: nat)
    ensures DirentPlusSize(namelen) == ENTRY_OUT_SIZE + DirentSize(namelen)
  {
  }

  // ----- readdirplus: the entry in front of each record

  /** What readdirplus tells of one name. */
  datatype PlusEntry = PlusEntry(entry: EntryParam, dirent: Dirent)

  function PlusRecord(p: PlusEntry): (r: Record)
    ensures |r.head| == ENTRY_OUT_SIZE
  {
    Record(EntryOutBytes(p.entry), p.dirent)
  }

  /** What the records of a readdirplus buffer tell. */
  function PlusEntries(rs: seq<Record>): (ps: seq<PlusEntry>)
    requires Uniform(ENTRY_OUT_SIZE, rs)
    ensures |ps| == |rs|
    ensures forall i :: 0 <= i < |ps| ==> ps[i] == PlusEntry(EntryFromBytes(rs[i].head), rs[i].entry)
  {
    seq(|rs|, i requires 0 <= i < |rs| => PlusEntry(EntryFromBytes(rs[i].head), rs[i].entry))
  }

  /** How the kernel reads a readdirplus buffer. */
  function DecodePlus(s: seq<byte>): Option<seq<PlusEntry>>
  {
    match Decode(ENTRY_OUT_SIZE, s)
    case None => None
    case Some(rs) => EncodeDecode(ENTRY_OUT_SIZE, s); Some(PlusEntries(rs))
  }

  /** The round trip for readdirplus: entries and records read back, precisely when the names fit. */
  lemma DecodePlusEncode(rs: seq<Record>)
    requires Uniform(ENTRY_OUT_SIZE, rs)
    ensures DecodePlus(Encode(rs)) == Some(PlusEntries(rs)) <==> AllShort(rs)
  {
    var s := Encode(rs);
    DecodeEncode(ENTRY_OUT_SIZE, rs);
    if DecodePlus(s) == Some(PlusEntries(rs)) {
      EncodeDecode(ENTRY_OUT_SIZE, s);
      DecodedNamesShort(ENTRY_OUT_SIZE, s);
      ShortTogether(Decode(ENTRY_OUT_SIZE, s).value, rs);
    }
  }

  lemma ShortTogether(rs: seq<Record>, rs': seq<Record>)
    requires Uniform(ENTRY_OUT_SIZE, rs) && Uniform(ENTRY_OUT_SIZE, rs')
    requires PlusEntries(rs) == PlusEntries(rs') && AllShort(rs)
    ensures AllShort(rs')
  {
    forall i | 0 <= i < |rs'| ensures ShortName(rs'[i]) {
      assert PlusEntries(rs)[i] == PlusEntries(rs')[i];
      assert ShortName(rs[i]);
    }
  }

  // ----- adding to a buffer of limited size

  /** The records after one more was offered: it is refused if it does not fit. */
  function AddedTo(size: nat, rs: seq<Record>, r: Record): seq<Record>
  {
    if |Encode(rs)| + |RecordBytes(r)| > size then rs else rs + [r]
  }

  /** The records in a buffer of this size after all of these were offered in turn. */
  function AfterAdds(size: nat, offered: seq<Record>): seq<Record>
  {
    if offered == [] then [] else AddedTo(size, AfterAdds(size, offered[..|offered| - 1]), offered[|offered| - 1])
  }

  lemma {:induction false} AfterAddsFit(size: nat, headSize: nat, offered: seq<Record>)
    requires Uniform(headSize, offered)
    ensures Uniform(headSize, AfterAdds(size, offered)) && |Encode(AfterAdds(size, offered))| <= size
    ensures forall i :: 0 <= i < |AfterAdds(size, offered)| ==> AfterAdds(size, offered)[i] in offered
  {
    if offered != [] {
      var before := offered[..|offered| - 1];
      AfterAddsFit(size, headSize, before);
      EncodeAppend(AfterAdds(size, before), offered[|offered| - 1]);
      assert forall r :: r in before ==> r in offered;
    }
  }

  /** The entries among those offered that found room, as the kernel is to see them. */
  function AcceptedPlus(size: nat, offered: seq<PlusEntry>): seq<PlusEntry>
  {
    if offered == [] then []
    else
      var got, p := AcceptedPlus(size, offered[..|offered| - 1]), offered[|offered| - 1];
      if PlusBytes(got) + DirentPlusSize(|p.dirent.name|) > size then got else got + [p]
  }

  /** The room entries take. */
  function PlusBytes(ps: seq<PlusEntry>): nat
  {
    if ps == [] then 0 else PlusBytes(ps[..|ps| - 1]) + DirentPlusSize(|ps[|ps| - 1].dirent.name|)
  }

  function PlusRecords(ps: seq<PlusEntry>): (rs: seq<Record>)
    ensures |rs| == |ps| && forall i :: 0 <= i < |rs| ==> rs[i] == PlusRecord(ps[i])
  {
    seq(|ps|, i requires 0 <= i < |ps| => PlusRecord(ps[i]))
  }

  lemma PlusRecordsAppend(ps: seq<PlusEntry>, p: PlusEntry)
    ensures PlusRecords(ps + [p]) == PlusRecords(ps) + [PlusRecord(p)]
  {
  }

  lemma PlusRecordsRead(ps: seq<PlusEntry>)
    ensures Uniform(ENTRY_OUT_SIZE, PlusRecords(ps)) && PlusEntries(PlusRecords(ps)) == ps
  {
    forall i | 0 <= i < |ps| ensures PlusEntries(PlusRecords(ps))[i] == ps[i] {
      EntryReadsBack(ps[i].entry, []);
      assert EntryOutBytes(ps[i].entry) + [] == EntryOutBytes(ps[i].entry);
    }
  }

  lemma {:induction false} PlusRecordsSize(ps: seq<PlusEntry>)
    ensures |Encode(PlusRecords(ps))| == PlusBytes(ps)
  {
    if ps != [] {
      var n := |ps| - 1;
      PlusRecordsSize(ps[..n]);
      assert ps == ps[..n] + [ps[n]];
      PlusRecordsAppend(ps[..n], ps[n]);
      EncodeAppend(PlusRecords(ps[..n]), PlusRecord(ps[n]));
      PlusSize(|ps[n].dirent.name|);
    }
  }

  lemma {:induction false} AcceptedAreAdded(size: nat, offered: seq<PlusEntry>)
    ensures AfterAdds(size, PlusRecords(offered)) == PlusRecords(AcceptedPlus(size, offered))
  {
    if offered != [] {
      var n := |offered| - 1;
      var before, p := offered[..n], offered[n];
      AcceptedAreAdded(size, before);
      assert PlusRecords(offered)[..n] == PlusRecords(before);
      var got := AcceptedPlus(size, before);
      PlusRecordsSize(got);
      PlusSize(|p.dirent.name|);
      PlusRecordsAppend(got, p);
    }
  }

  /** A buffer filled by `AddReaddirPlus` alone reads back as the entries that found room, precisely when
      their names fit their fields. */
  lemma PlusAddsReadBack(size: nat, offered: seq<PlusEntry>)
    ensures var got, data := AcceptedPlus(size, offered), Encode(AfterAdds(size, PlusRecords(offered)));
            && |data| == PlusBytes(got) <= size
            && (DecodePlus(data) == Some(got) <==> forall i :: 0 <= i < |got| ==> |got[i].dirent.name| < 0x1_0000_0000)
  {
    var got := AcceptedPlus(size, offered);
    var rs := PlusRecords(got);
    AcceptedAreAdded(size, offered);
    PlusRecordsRead(got);
    PlusRecordsRead(offered);
    PlusRecordsSize(got);
    AfterAddsFit(size, ENTRY_OUT_SIZE, PlusRecords(offered));
    DecodePlusEncode(rs);
    assert AllShort(rs) <==> forall i :: 0 <= i < |got| ==> |got[i].dirent.name| < 0x1_0000_0000 by {
      if AllShort(rs) {
        forall i | 0 <= i < |got| ensures |got[i].dirent.name| < 0x1_0000_0000 { assert ShortName(rs[i]); }
      }
    }
  }

  /** And one filled by `AddReaddir` alone as its records. */
  lemma PlainAddsReadBack(size: nat, offered: seq<Record>)
    requires Uniform(0, offered)
    ensures var rs := AfterAdds(size, offered);
            |Encode(rs)| <= size && (Decode(0, Encode(rs)) == Some(rs) <==> AllShort(rs))
  {
    AfterAddsFit(size, 0, offered);
    DecodeEncode(0, AfterAdds(size, offered));
  }

  lemma SumAligned(a: nat, b: nat, c: nat)
    requires a % 8 == 0 && b % 8 == 0 && c % 8 == 0
    ensures (a + b + c) % 8 == 0
  {
  }

  lemma {:induction false} EncodeAligned(headSize: nat, rs: seq<Record>)
    requires Uniform(headSize, rs) && headSize % 8 == 0
    ensures |Encode(rs)| % 8 == 0
  {
    if rs != [] {
      EncodeAligned(headSize, rs[1..]);
      SumAligned(headSize, DirentSize(|rs[0].entry.name|), |Encode(rs[1..])|);
    }
  }

  /** Two writes one behind the other are one. */
  lemma OverOver(s: seq<byte>, at: nat, a: seq<byte>, b: seq<byte>)
    requires at + |a| + |b| <= |s|
    ensures Over(Over(s, at, a), at + |a|, b) == Over(s, at, a + b)
  {
    var t := Over(s, at, a);
    assert t[..at + |a|] == s[..at] + a;
    assert t[at + |a| + |b|..] == s[at + |a| + |b|..];
  }

  class ReplyBuf {
    const buffer: array<byte>
    var filled: nat
    /** The records added so far. */
    ghost var records: seq<Record>

    ghost predicate Valid()
      reads this, buffer
    {
      filled <= buffer.Length && buffer[..filled] == Encode(records)
    }

    constructor (size: nat)
      ensures Valid() && fresh(buffer) && buffer.Length == size && records == [] && filled == 0
    {
      buffer := new byte[size](_ => 0);
      filled := 0;
      records := [];
    }

    method FilledData() returns (data: seq<byte>)
      requires Valid()
      ensures data == Encode(records)
      ensures Uniform(0, records) ==> (Decode(0, data) == Some(records) <==> AllShort(records))
      ensures Uniform(ENTRY_OUT_SIZE, records) ==>
                (DecodePlus(data) == Some(PlusEntries(records)) <==> AllShort(records))
    {
      data := buffer[..filled];
      if Uniform(0, records) { DecodeEncode(0, records); }
      if Uniform(ENTRY_OUT_SIZE, records) { DecodePlusEncode(records); }
    }

    /** Writes header, name and zero padding at `at`, and returns the size of the whole entry. */
    method WriteDirent(at: nat, d: Dirent) returns (size: nat)
      requires at + DirentSize(|d.name|) <= buffer.Length
      modifies buffer
      ensures size == DirentSize(|d.name|)
      ensures buffer[..] == Over(old(buffer[..]), at, DirentBytes(d))
    {
      size := DirentSize(|d.name|);
      ghost var was := buffer[..];
      CopyInto(buffer, at, DirentHeader(d));
      var nameAt := at + DIRENT_HEADER_SIZE;
      CopyInto(buffer, nameAt, d.name);
      OverOver(was, at, DirentHeader(d), d.name);
      FillZero(buffer, nameAt + |d.name|, at + size);
      OverOver(was, at, DirentHeader(d) + d.name, Padding(|d.name|));
    }

    /** Full exactly when the entry does not fit, and then nothing changes. */
    method AddReaddir(name: Name, attr: Attr, next: u64) returns (r: ReplyBufState)
      requires Valid()
      modifies this`filled, this`records, buffer
      ensures Valid()
      ensures r == Full <==> old(filled) + DirentSize(|name|) > buffer.Length
      ensures r == Full ==> filled == old(filled) && records == old(records) && buffer[..] == old(buffer[..])
      ensures r == Added ==> filled == old(filled) + DirentSize(|name|)
      ensures r == Added ==>
                records == old(records) + [Record([], Dirent(attr.ino, next, ModeToDirentType(attr.mode), name))]
      ensures records == AddedTo(buffer.Length, old(records),
                Record([], Dirent(attr.ino, next, ModeToDirentType(attr.mode), name)))
    {
      if filled + DirentSize(|name|) > buffer.Length { return Full; }
      AppendRecord([], Dirent(attr.ino, next, ModeToDirentType(attr.mode), name));
      return Added;
    }

    method AddReaddirPlus(name: Name, entry: EntryParam, next: u64) returns (r: ReplyBufState)
      requires Valid()
      modifies this`filled, this`records, buffer
      ensures Valid()
      ensures r == Full <==> old(filled) + DirentPlusSize(|name|) > buffer.Length
      ensures r == Full ==> filled == old(filled) && records == old(records) && buffer[..] == old(buffer[..])
      ensures r == Added ==> filled == old(filled) + DirentPlusSize(|name|)
      ensures r == Added ==> records == old(records) + [Record(EntryOutBytes(entry),
                                     Dirent(entry.attr.ino, next, ModeToDirentType(entry.attr.mode), name))]
      ensures records == AddedTo(buffer.Length, old(records),
                PlusRecord(PlusEntry(entry, Dirent(entry.attr.ino, next, ModeToDirentType(entry.attr.mode), name))))
    {
      PlusSize(|name|);
      if filled + DirentPlusSize(|name|) > buffer.Length { return Full; }
      var entryOut := EntryOutBytes(entry);
      var dirent := Dirent(entry.attr.ino, next, ModeToDirentType(entry.attr.mode), name);
      AppendRecord(entryOut, dirent);
      return Added;
    }

    /** Head first, then the entry behind it. */
    method AppendRecord(head: seq<byte>, d: Dirent)
      requires Valid() && filled + |head| + DirentSize(|d.name|) <= buffer.Length
      modifies this`filled, this`records, buffer
      ensures Valid() && records == old(records) + [Record(head, d)]
      ensures filled == old(filled) + |head| + DirentSize(|d.name|)
    {
      ghost var was, body, rs := Encode(records), DirentBytes(d), records + [Record(head, d)];
      EncodeAppendParts(records, head, d);
      CopyInto(buffer, filled, head);
      var at := filled + |head|;
      assert buffer[..at] == was + head;
      var size := WriteDirent(at, d);
      assert buffer[..at + size] == (was + head) + body;
      filled := at + size;
      records := rs;
    }
  }
}
