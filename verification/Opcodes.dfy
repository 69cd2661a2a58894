/** The opcodes of src/protocol.rs. */
module Opcodes {
  import opened Bytes

  datatype Opcode =
    | Lookup | Forget | Getattr | Setattr | Readlink | Mknod | Mkdir | Unlink | Rmdir | Open | Read
    | Write | Statfs | Release | Getxattr | Listxattr | Init | Readdir | Create | Interrupt | Destroy
    | BatchForget | Readdirplus | Rename2

  function FromU32(v: nat): Option<Opcode>
  {
    match v
    case 1 => Some(Lookup)
    case 2 => Some(Forget)
    case 3 => Some(Getattr)
    case 4 => Some(Setattr)
    case 5 => Some(Readlink)
    case 8 => Some(Mknod)
    case 9 => Some(Mkdir)
    case 10 => Some(Unlink)
    case 11 => Some(Rmdir)
    case 14 => Some(Open)
    case 15 => Some(Read)
    case 16 => Some(Write)
    case 17 => Some(Statfs)
    case 18 => Some(Release)
    case 22 => Some(Getxattr)
    case 23 => Some(Listxattr)
    case 26 => Some(Init)
    case 28 => Some(Readdir)
    case 35 => Some(Create)
    case 36 => Some(Interrupt)
    case 38 => Some(Destroy)
    case 42 => Some(BatchForget)
    case 44 => Some(Readdirplus)
    case 45 => Some(Rename2)
    case _ => None
  }

  /** The discriminant of each variant. */
  function ToU32(op: Opcode): nat
  {
    match op
    case Lookup => 1
    case Forget => 2
    case Getattr => 3
    case Setattr => 4
    case Readlink => 5
    case Mknod => 8
    case Mkdir => 9
    case Unlink => 10
    case Rmdir => 11
    case Open => 14
    case Read => 15
    case Write => 16
    case Statfs => 17
    case Release => 18
    case Getxattr => 22
    case Listxattr => 23
    case Init => 26
    case Readdir => 28
    case Create => 35
    case Interrupt => 36
    case Destroy => 38
    case BatchForget => 42
    case Readdirplus => 44
    case Rename2 => 45
  }

  /** Every variant survives the trip through its number, and every accepted number names its variant. */
  lemma OpcodeNumbers(op: Opcode, v: nat)
    ensures FromU32(ToU32(op)) == Some(op)
    ensures FromU32(v) == Some(op) <==> v == ToU32(op)
  {
  }
}
