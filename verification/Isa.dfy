/** The instruction set as bytes: the opcode table and the operand encoding that the assembler
    and the virtual machine share. */
module Isa {
  import opened Bytes
  import opened Asm

  // operand type bytes
  const NUMBER: Byte := 0
  const REGISTER: Byte := 1
  const ADDRESS: Byte := 2
  const INDIRECT_REG: Byte := 3
  const INDIRECT_MEM: Byte := 4
  const INDIRECT_LBL: Byte := 5
  const NUMBER_16: Byte := 6

  datatype RawArg = RawArg(typ: Byte, value: Word)

  datatype Fetched = Fetched(opcode: Byte, args: seq<RawArg>)

  /** Operand types followed by a 16-bit value. */
  predicate TwoBytes(typ: Byte) { typ == ADDRESS || typ == INDIRECT_LBL || typ == INDIRECT_MEM || typ == NUMBER_16 }

  /** Operand types followed by an 8-bit value. */
  predicate OneByte(typ: Byte) { typ == REGISTER || typ == INDIRECT_REG || typ == NUMBER }

  /** `fetch_argument`: the operand at `pc` and the address behind it; None past the end of memory. */
  function FetchArg(ram: seq<Byte>, pc: nat): Option<(RawArg, nat)> {
    if pc >= |ram| then None
    else
      var typ := ram[pc];
      if TwoBytes(typ) then
        if pc + 2 < |ram| then Some((RawArg(typ, Join(ram[pc + 1], ram[pc + 2])), pc + 3)) else None
      else if OneByte(typ) then
        if pc + 1 < |ram| then Some((RawArg(typ, ram[pc + 1]), pc + 2)) else None
      else Some((RawArg(typ, 0), pc + 1))
  }

  /** `n` operands in a row. */
  function FetchArgs(ram: seq<Byte>, pc: nat, n: nat): Option<(seq<RawArg>, nat)>
    decreases n
  {
    if n == 0 then Some(([], pc))
    else
      match FetchArg(ram, pc)
      case None => None
      case Some((arg, pc1)) =>
        match FetchArgs(ram, pc1, n - 1)
        case None => None
        case Some((args, pc2)) => Some(([arg] + args, pc2))
  }

  /** How many operands the machine fetches for an opcode. */
  function Arity(opcode: Byte): nat {
    if opcode in {0x12, 0x32, 0x52, 0x72, 0x92, 0xB2, 0xC2, 0xD2} then 2
    else if opcode in {0x01, 0x21, 0x31, 0x41, 0x51, 0x61, 0x71, 0x81, 0x91, 0xA1, 0xB1} then 1
    else 0
  }

  /** One whole instruction. */
  function Fetch(ram: seq<Byte>, pc: nat): Option<(Fetched, nat)> {
    if pc >= |ram| then None
    else
      match FetchArgs(ram, pc + 1, Arity(ram[pc]))
      case None => None
      case Some((args, next)) => Some((Fetched(ram[pc], args), next))
  }

  /** The instruction table: a mnemonic with the right number of operands. */
  function OpcodeOf(m: Mnemonic, nargs: nat): Option<Byte> {
    match m
    case NOP => if nargs == 0 then Some(0x00) else None
    case MOV => if nargs == 2 then Some(0x12) else None
    case PRINT => if nargs == 1 then Some(0x01) else None
    case PRINTFLUSH => if nargs == 0 then Some(0x10) else None
    case ADD => if nargs == 2 then Some(0x32) else None
    case SUB => if nargs == 2 then Some(0x52) else None
    case MUL => if nargs == 2 then Some(0x72) else None
    case DIV => if nargs == 2 then Some(0x92) else None
    case INPUT => if nargs == 1 then Some(0x21) else None
    case JMP => if nargs == 1 then Some(0x31) else None
    case CMP => if nargs == 2 then Some(0xB2) else None
    case JE => if nargs == 1 then Some(0x41) else None
    case JNE => if nargs == 1 then Some(0x51) else None
    case JG => if nargs == 1 then Some(0x61) else None
    case JNG => if nargs == 1 then Some(0x71) else None
    case SPUSH => if nargs == 1 then Some(0x81) else None
    case SPOP => if nargs == 1 then Some(0x91) else None
    case HALLOC => if nargs == 2 then Some(0xC2) else None
    case HFREE => if nargs == 1 then Some(0xA1) else None
    case CALL => if nargs == 1 then Some(0xB1) else None
    case RET => if nargs == 0 then Some(0x20) else None
    case FBSET => if nargs == 2 then Some(0xD2) else None
    case FBSYNC => if nargs == 0 then Some(0x30) else None
    case HALT => if nargs == 0 then Some(0xFF) else None
    case Unknown(_) => None
  }

  /** The machine fetches as many operands as the assembler wrote, and no two instructions share an opcode. */
  lemma OpcodeArity(m: Mnemonic, nargs: nat)
    requires OpcodeOf(m, nargs).Some?
    ensures Arity(OpcodeOf(m, nargs).value) == nargs
    ensures forall m', n' :: OpcodeOf(m', n') == OpcodeOf(m, nargs) ==> m' == m && n' == nargs
  {
  }

  function RegCode(r: Reg): Byte {
    match r
    case A => 1
    case B => 2
    case C => 3
    case D => 4
  }
}
