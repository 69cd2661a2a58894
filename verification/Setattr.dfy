/** What a setattr request tells its handler (src/requests.rs, `Setattr`). */
module SetattrRequests {
  import opened Bytes
  import opened Messages
  import opened RoundTrips

  datatype Duration = Duration(secs: nat, nanos: nat)

  datatype SetTime = Now | Time(since: Duration)

  /** Times before the epoch count as the epoch, and nanoseconds stay below a second. */
  function DurationFromC(secs: int, nanos: int): (d: Duration)
    ensures d.nanos <= 999_999_999
  {
    Duration(Max(secs, 0), Min(Max(nanos, 0), 999_999_999))
  }

  function When<T>(b: Body, flag: bv32, value: T): Option<T>
    requires b.ReqSetattr?
  {
    if Has(b.toSet, flag) then Some(value) else None
  }

  function Mode(b: Body): Option<nat> requires b.ReqSetattr? { When(b, FATTR_MODE, b.stat.mode) }

  function Uid(b: Body): Option<nat> requires b.ReqSetattr? { When(b, FATTR_UID, b.stat.uid) }

  function Gid(b: Body): Option<nat> requires b.ReqSetattr? { When(b, FATTR_GID, b.stat.gid) }

  /** `st_size as u64` */
  function Size(b: Body): Option<nat>
    requires b.ReqSetattr?
  {
    When(b, FATTR_SIZE, b.stat.size % 0x1_0000_0000_0000_0000)
  }

  /** An explicit time wins over "now". */
  function ChooseTime(b: Body, explicit: bv32, now: bv32, secs: int, nanos: int): Option<SetTime>
    requires b.ReqSetattr?
  {
    if Has(b.toSet, explicit) then Some(Time(DurationFromC(secs, nanos)))
    else if Has(b.toSet, now) then Some(Now)
    else None
  }

  function Atime(b: Body): Option<SetTime>
    requires b.ReqSetattr?
  {
    ChooseTime(b, FATTR_ATIME, FATTR_ATIME_NOW, b.stat.atime, b.stat.atimeNsec)
  }

  function Mtime(b: Body): Option<SetTime>
    requires b.ReqSetattr?
  {
    ChooseTime(b, FATTR_MTIME, FATTR_MTIME_NOW, b.stat.mtime, b.stat.mtimeNsec)
  }

  function Ctime(b: Body): Option<Duration>
    requires b.ReqSetattr?
  {
    When(b, FATTR_CTIME, DurationFromC(b.stat.ctime, b.stat.ctimeNsec))
  }

  /** Only the low eleven bits matter, and bit 9 does not. */
  lemma FlagsSurviveMask(valid: bv32)
    ensures Has(valid & FATTR_ALL, FATTR_MODE) == Has(valid, FATTR_MODE)
    ensures Has(valid & FATTR_ALL, FATTR_UID) == Has(valid, FATTR_UID)
    ensures Has(valid & FATTR_ALL, FATTR_GID) == Has(valid, FATTR_GID)
    ensures Has(valid & FATTR_ALL, FATTR_SIZE) == Has(valid, FATTR_SIZE)
    ensures Has(valid & FATTR_ALL, FATTR_ATIME) == Has(valid, FATTR_ATIME)
    ensures Has(valid & FATTR_ALL, FATTR_ATIME_NOW) == Has(valid, FATTR_ATIME_NOW)
    ensures Has(valid & FATTR_ALL, FATTR_MTIME) == Has(valid, FATTR_MTIME)
    ensures Has(valid & FATTR_ALL, FATTR_MTIME_NOW) == Has(valid, FATTR_MTIME_NOW)
    ensures Has(valid & FATTR_ALL, FATTR_CTIME) == Has(valid, FATTR_CTIME)
    ensures Has(valid & FATTR_ALL, FATTR_FH) == Has(valid, FATTR_FH)
  {
  }

  /** A wire time as it comes out: seconds that are negative as signed numbers become the epoch. */
  function WireTime(secs: u64, nanos: u32): Duration
  {
    Duration(if secs < 0x8000_0000_0000_0000 then secs else 0, if nanos < 1_000_000_000 then nanos else 999_999_999)
  }

  lemma WireTimeSurvives(secs: u64, nanos: u32)
    ensures DurationFromC(AsI64(secs), nanos) == WireTime(secs, nanos)
  {
  }

  /** The value of a field the kernel marked. */
  function Marked<T>(valid: bv32, flag: bv32, value: T): Option<T>
  {
    if Has(valid, flag) then Some(value) else None
  }

  function MarkedTime(valid: bv32, explicit: bv32, now: bv32, d: Duration): Option<SetTime>
  {
    if Has(valid, explicit) then Some(Time(d)) else if Has(valid, now) then Some(Now) else None
  }

  /** What the handler of a setattr message reads is what the kernel wrote, field by field. */
  lemma AccessorsReadTheFields(node: u64, f: SetattrIn)
    ensures var b, valid := MeantSetattr(node, f), f.valid as bv32;
            && Mode(b) == Marked(valid, FATTR_MODE, f.mode)
            && Uid(b) == Marked(valid, FATTR_UID, f.uid)
            && Gid(b) == Marked(valid, FATTR_GID, f.gid)
            && Size(b) == Marked(valid, FATTR_SIZE, f.size)
            && b.fh == Marked(valid, FATTR_FH, f.fh)
  {
    FieldsReadTheMessage(MeantSetattr(node, f), f.valid as bv32, f);
  }

  lemma AccessorsReadTheTimes(node: u64, f: SetattrIn)
    ensures var b, valid := MeantSetattr(node, f), f.valid as bv32;
            && Atime(b) == MarkedTime(valid, FATTR_ATIME, FATTR_ATIME_NOW, WireTime(f.atime, f.atimensec))
            && Mtime(b) == MarkedTime(valid, FATTR_MTIME, FATTR_MTIME_NOW, WireTime(f.mtime, f.mtimensec))
            && Ctime(b) == Marked(valid, FATTR_CTIME, WireTime(f.ctime, f.ctimensec))
  {
    TimesReadTheMessage(MeantSetattr(node, f), f.valid as bv32, f);
  }

  lemma FieldsReadTheMessage(b: Body, valid: bv32, f: SetattrIn)
    requires b.ReqSetattr? && b.toSet == valid & FATTR_ALL
    requires b.stat.mode == f.mode && b.stat.uid == f.uid && b.stat.gid == f.gid
    requires b.stat.size == AsI64(f.size) && b.fh == if Has(b.toSet, FATTR_FH) then Some(f.fh) else None
    ensures Mode(b) == Marked(valid, FATTR_MODE, f.mode)
    ensures Uid(b) == Marked(valid, FATTR_UID, f.uid)
    ensures Gid(b) == Marked(valid, FATTR_GID, f.gid)
    ensures Size(b) == Marked(valid, FATTR_SIZE, f.size)
    ensures b.fh == Marked(valid, FATTR_FH, f.fh)
  {
    FlagsSurviveMask(valid);
    SizeSurvives(f.size);
  }

  lemma SizeSurvives(size: u64)
    ensures AsI64(size) % 0x1_0000_0000_0000_0000 == size
  {
  }

  lemma TimesReadTheMessage(b: Body, valid: bv32, f: SetattrIn)
    requires b.ReqSetattr? && b.toSet == valid & FATTR_ALL
    requires b.stat.atime == AsI64(f.atime) && b.stat.atimeNsec == f.atimensec
    requires b.stat.mtime == AsI64(f.mtime) && b.stat.mtimeNsec == f.mtimensec
    requires b.stat.ctime == AsI64(f.ctime) && b.stat.ctimeNsec == f.ctimensec
    ensures Atime(b) == MarkedTime(valid, FATTR_ATIME, FATTR_ATIME_NOW, WireTime(f.atime, f.atimensec))
    ensures Mtime(b) == MarkedTime(valid, FATTR_MTIME, FATTR_MTIME_NOW, WireTime(f.mtime, f.mtimensec))
    ensures Ctime(b) == Marked(valid, FATTR_CTIME, WireTime(f.ctime, f.ctimensec))
  {
    FlagsSurviveMask(valid);
    WireTimeSurvives(f.atime, f.atimensec);
    WireTimeSurvives(f.mtime, f.mtimensec);
    WireTimeSurvives(f.ctime, f.ctimensec);
  }
}
