/** `VM::exec` in headless mode, as a function on machine states. */
module Vm {
  import opened Bytes
  import opened Isa
  import Brainfuck
  import Heap

  datatype Error =
    | UnknownType | StackOverflow | StackUnderflow | HeapOverflow | FreeOfFree | DivideByZero
    | CallOfNonLabel | NotGraphical | InvalidOpcode
    | Undefined  // the source reads or writes outside its vectors, or walks a corrupt heap for ever

  datatype Status = Running | Halted | Fault(error: Error)

  datatype Proc = Proc(
    firstSector: Word, lastCode: Word, memory: nat,
    pc: Word, sp: Word, heapStart: Word, heapLimit: Word, stackLimit: Word)

  datatype State = State(
    ram: seq<Byte>, regs: seq<Byte>, zero: bool, sign: bool, proc: Proc,
    input: seq<int>, output: seq<Byte>, status: Status)

  // ----- operands -----

  /** Where an operand writes. */
  datatype Loc = RegAt(i: nat) | CellAt(addr: nat) | NoLoc(error: Error)

  function RegLoc(s: State, value: Word): Loc {
    if 1 <= value <= |s.regs| then RegAt(value - 1) else NoLoc(Undefined)
  }

  function CellLoc(s: State, addr: nat): Loc { if addr < |s.ram| then CellAt(addr) else NoLoc(Undefined) }

  /** `resolve_writeable_arg` */
  function Resolve(s: State, arg: RawArg): Loc {
    if arg.typ == REGISTER then RegLoc(s, arg.value)
    else if arg.typ == INDIRECT_LBL then
      var addr := Wrap16(arg.value + s.proc.firstSector);
      if addr + 1 < |s.ram| then CellLoc(s, s.proc.firstSector + Join(s.ram[addr], s.ram[addr + 1]))
      else NoLoc(Undefined)
    else if arg.typ == INDIRECT_MEM || arg.typ == ADDRESS then CellLoc(s, Wrap16(arg.value + s.proc.firstSector))
    else if arg.typ == INDIRECT_REG then
      match RegLoc(s, arg.value)
      case RegAt(i) => CellLoc(s, s.proc.firstSector + s.regs[i])
      case other => other
    else NoLoc(UnknownType)
  }

  predicate ValidLoc(s: State, loc: Loc) {
    match loc
    case RegAt(i) => i < |s.regs|
    case CellAt(addr) => addr < |s.ram|
    case NoLoc(_) => false
  }

  lemma ResolveValid(s: State, arg: RawArg)
    ensures Resolve(s, arg).NoLoc? || ValidLoc(s, Resolve(s, arg))
  {
  }

  function Load(s: State, loc: Loc): Byte
    requires ValidLoc(s, loc)
  {
    match loc
    case RegAt(i) => s.regs[i]
    case CellAt(addr) => s.ram[addr]
    case NoLoc(_) => 0
  }

  function Store(s: State, loc: Loc, v: Byte): State
    requires ValidLoc(s, loc)
  {
    match loc
    case RegAt(i) => s.(regs := s.regs[i := v])
    case CellAt(addr) => s.(ram := s.ram[addr := v])
    case NoLoc(_) => s
  }

  datatype Read = Val(v: Byte) | Err(error: Error)

  /** What a location holds. */
  function Content(s: State, loc: Loc): Read { if ValidLoc(s, loc) then Val(Load(s, loc)) else Err(Undefined) }

  /** The cell that an operand that is not a plain number denotes. */
  function Deref(s: State, arg: RawArg): Read {
    ResolveValid(s, arg);
    match Resolve(s, arg)
    case NoLoc(e) => Err(e)
    case loc => Val(Load(s, loc))
  }

  function ReadArg(s: State, arg: RawArg): Read {
    if arg.typ == NUMBER then Val(Wrap(arg.value)) else Deref(s, arg)
  }

  function Throw(s: State, e: Error): State { s.(status := Fault(e)) }

  function Assign(s: State, dest: RawArg, v: Byte): State {
    ResolveValid(s, dest);
    match Resolve(s, dest)
    case NoLoc(e) => Throw(s, e)
    case loc => Store(s, loc, v)
  }

  // ----- instructions; the program counter already points behind the instruction -----

  function Move(s: State, dest: RawArg, src: RawArg): State {
    match ReadArg(s, src)
    case Err(e) => Throw(s, e)
    case Val(v) => Assign(s, dest, v)
  }

  datatype Arith = Add | Sub | Mul | Div

  function Result(op: Arith, x: Byte, y: Byte): Byte
    requires op.Div? ==> y != 0
  {
    match op
    case Add => Wrap(x + y)
    case Sub => Wrap(x - y)
    case Mul => Wrap(x * y)
    case Div => x / y
  }

  function Combine(s: State, op: Arith, dest: RawArg, src: RawArg): State {
    match ReadArg(s, src)
    case Err(e) => Throw(s, e)
    case Val(y) =>
      if op.Div? && y == 0 then Throw(s, DivideByZero)
      else
        match Deref(s, dest)
        case Err(e) => Throw(s, e)
        case Val(x) => Assign(s, dest, Result(op, x, y))
  }

  function Print(s: State, arg: RawArg): State {
    match ReadArg(s, arg)
    case Err(e) => Throw(s, e)
    case Val(v) => s.(output := s.output + [v])
  }

  function Input(s: State, arg: RawArg): State {
    Assign(s.(input := Brainfuck.RestInput(s.input)), arg, Brainfuck.NextInput(s.input))
  }

  function Compare(s: State, x: RawArg, y: RawArg): State {
    match ReadArg(s, x)
    case Err(e) => Throw(s, e)
    case Val(a) =>
      match ReadArg(s, y)
      case Err(e) => Throw(s, e)
      case Val(b) => s.(zero := a == b, sign := a > b)
  }

  function Jumped(s: State, offset: Word): State {
    s.(proc := s.proc.(pc := Wrap16(s.proc.firstSector + offset)))
  }

  function Jump(s: State, target: RawArg): State {
    if target.typ == ADDRESS then Jumped(s, target.value)
    else
      match Deref(s, target)
      case Err(e) => Throw(s, e)
      case Val(v) => Jumped(s, v)
  }

  /** Conditional jumps look at their operand only when they are taken. */
  function JumpIf(s: State, taken: bool, target: RawArg): State {
    if !taken then s
    else if target.typ == NUMBER || target.typ == ADDRESS then Jumped(s, target.value)
    else
      match Deref(s, target)
      case Err(e) => Throw(s, e)
      case Val(v) => Jumped(s, v)
  }

  /** Operand types that take two bytes on the stack. */
  function StackWidth(arg: RawArg): nat {
    if arg.typ == ADDRESS || arg.typ == INDIRECT_LBL || arg.typ == INDIRECT_MEM then 2 else 1
  }

  function WithSp(s: State, sp: Word): State { s.(proc := s.proc.(sp := sp)) }

  /** Moves the stack pointer down and writes `bytes` there. */
  function PushBytes(s: State, bytes: seq<Byte>): State {
    var s1 := WithSp(s, Wrap16(s.proc.sp - |bytes|));
    var sp := s1.proc.sp;
    if sp < s.proc.stackLimit then Throw(s1, StackOverflow)
    else if sp + |bytes| > |s.ram| then Throw(s1, Undefined)
    else s1.(ram := s.ram[..sp] + bytes + s.ram[sp + |bytes|..])
  }

  function Push(s: State, arg: RawArg): State {
    match ReadArg(s, arg)
    case Err(e) => Throw(s, e)
    case Val(v) => PushBytes(s, if StackWidth(arg) == 1 then [v] else [0, v])
  }

  function StackTop(s: State): nat { s.proc.firstSector + s.proc.memory }

  function Pop(s: State, arg: RawArg): State {
    var n := StackWidth(arg);
    if s.proc.sp + n > StackTop(s) then Throw(s, StackUnderflow)
    else if s.proc.sp + n > |s.ram| then Throw(s, Undefined)
    else
      var s1 := Assign(s, arg, s.ram[s.proc.sp + n - 1]);
      if s1.status.Fault? then s1 else WithSp(s1, Wrap16(s.proc.sp + n))
  }

  function Alloc(s: State, place: RawArg, size: RawArg): State {
    var n := if size.typ == NUMBER then Val(Wrap(size.value)) else Deref(s, size);
    match n
    case Err(e) => Throw(s, e)
    case Val(n) =>
      match Heap.Halloc(s.ram, s.proc.heapStart, s.proc.heapLimit, n)
      case HeapOverflow => Throw(s, HeapOverflow)
      case HallocCorrupt => Throw(s, Undefined)
      case Allocated(ram1, ptr) => Assign(s.(ram := ram1), place, Wrap(ptr))
  }

  function Release(s: State, arg: RawArg): State {
    if arg.typ == ADDRESS then ReleaseAt(s, arg.value)
    else
      match Deref(s, arg)
      case Err(e) => Throw(s, e)
      case Val(v) => ReleaseAt(s, v)
  }

  function ReleaseAt(s: State, ptr: Word): State {
    match Heap.Hfree(s.ram, s.proc.heapStart, s.proc.heapLimit, ptr)
    case Freed(ram1) => s.(ram := ram1)
    case NotOwnedBlock => Throw(s, FreeOfFree)
    case HfreeCorrupt => Throw(s, Undefined)
  }

  function Call(s: State, arg: RawArg): State {
    if arg.typ != ADDRESS then Throw(s, CallOfNonLabel)
    else
      var s1 := PushBytes(s, [High(s.proc.pc), Low(s.proc.pc)]);
      if s1.status.Fault? then s1 else s1.(proc := s1.proc.(pc := arg.value))
  }

  function Return(s: State): State {
    if s.proc.sp + 2 > StackTop(s) then Throw(s, StackUnderflow)
    else if s.proc.sp + 2 > |s.ram| then Throw(s, Undefined)
    else s.(proc := s.proc.(sp := Wrap16(s.proc.sp + 2), pc := Join(s.ram[s.proc.sp], s.ram[s.proc.sp + 1])))
  }

  // ----- the loop -----

  function Dispatch(s: State, f: Fetched): State
    requires |f.args| == Arity(f.opcode)
  {
    match f.opcode
    case 0x00 => s
    case 0x12 => Move(s, f.args[0], f.args[1])
    case 0x01 => Print(s, f.args[0])
    case 0x10 => s.(output := s.output + [10])
    case 0x32 => Combine(s, Add, f.args[0], f.args[1])
    case 0x52 => Combine(s, Sub, f.args[0], f.args[1])
    case 0x72 => Combine(s, Mul, f.args[0], f.args[1])
    case 0x92 => Combine(s, Div, f.args[0], f.args[1])
    case 0x21 => Input(s, f.args[0])
    case 0x31 => Jump(s, f.args[0])
    case 0xB2 => Compare(s, f.args[0], f.args[1])
    case 0x41 => JumpIf(s, s.zero, f.args[0])
    case 0x51 => JumpIf(s, !s.zero, f.args[0])
    case 0x61 => JumpIf(s, s.sign, f.args[0])
    case 0x71 => JumpIf(s, !s.sign, f.args[0])
    case 0x81 => Push(s, f.args[0])
    case 0x91 => Pop(s, f.args[0])
    case 0xC2 => Alloc(s, f.args[0], f.args[1])
    case 0xA1 => Release(s, f.args[0])
    case 0xB1 => Call(s, f.args[0])
    case 0x20 => Return(s)
    case 0xD2 => Throw(s, NotGraphical)
    case 0x30 => Throw(s, Undefined)
    case 0xFF => s.(status := Halted)
    case _ => Throw(s, InvalidOpcode)
  }

  /** HALT is the only instruction that stops a process without an exception. */
  lemma OnlyHaltHalts(s: State, f: Fetched)
    requires s.status.Running? && |f.args| == Arity(f.opcode)
    ensures Dispatch(s, f).status == Halted <==> f.opcode == 0xFF
  {
    hide Assign, Deref, ReadArg, PushBytes, Heap.Halloc, Heap.Hfree, Combine;
    forall s1: State, arg, v | s1.status.Running? ensures Assign(s1, arg, v).status != Halted { AssignGoesOn(s1, arg, v); }
    forall bytes ensures PushBytes(s, bytes).status != Halted { PushGoesOn(s, bytes); }
    forall op, dest, src ensures Combine(s, op, dest, src).status != Halted { CombineGoesOn(s, op, dest, src); }
  }

  lemma AssignGoesOn(s: State, arg: RawArg, v: Byte)
    requires s.status.Running?
    ensures Assign(s, arg, v).status != Halted
  {
    hide Resolve;
    ResolveValid(s, arg);
  }

  lemma PushGoesOn(s: State, bytes: seq<Byte>)
    requires s.status.Running?
    ensures PushBytes(s, bytes).status != Halted
  {
  }

  lemma CombineGoesOn(s: State, op: Arith, dest: RawArg, src: RawArg)
    requires s.status.Running?
    ensures Combine(s, op, dest, src).status != Halted
  {
    hide Assign, Deref, ReadArg;
    forall v ensures Assign(s, dest, v).status != Halted { AssignGoesOn(s, dest, v); }
  }

  lemma {:induction false} FetchArgsCount(ram: seq<Byte>, pc: nat, n: nat)
    requires FetchArgs(ram, pc, n).Some?
    ensures |FetchArgs(ram, pc, n).value.0| == n
    decreases n
  {
    if n > 0 { FetchArgsCount(ram, FetchArg(ram, pc).value.1, n - 1); }
  }

  lemma FetchCount(ram: seq<Byte>, pc: nat)
    requires Fetch(ram, pc).Some?
    ensures |Fetch(ram, pc).value.0.args| == Arity(Fetch(ram, pc).value.0.opcode)
  {
    FetchArgsCount(ram, pc + 1, Arity(ram[pc]));
  }

  /** The process is at an instruction of its code. */
  predicate Live(s: State) { s.status.Running? && s.proc.pc < s.proc.lastCode }

  /** One round of the loop. A stopped machine stays as it is. */
  function Step(s: State): State {
    if !Live(s) then s
    else
      match Fetch(s.ram, s.proc.pc)
      case None => Throw(s, Undefined)
      case Some((f, next)) =>
        FetchCount(s.ram, s.proc.pc);
        Dispatch(s.(proc := s.proc.(pc := Wrap16(next))), f)
  }

  function Run(s: State, n: nat): State
    decreases n
  {
    if n == 0 then s else Run(Step(s), n - 1)
  }

  lemma {:induction false} RunAdd(s: State, m: nat, n: nat)
    ensures Run(s, m + n) == Run(Run(s, m), n)
    decreases m
  {
    hide Step;
    if m > 0 { RunAdd(Step(s), m - 1, n); }
  }

  lemma {:induction false} RunStopped(s: State, n: nat)
    requires !Live(s)
    ensures Run(s, n) == s
    decreases n
  {
    if n > 0 { RunStopped(s, n - 1); }
  }

  lemma RunNothing(s: State)
    ensures Run(s, 0) == s
  {
  }

  lemma RunLast(s: State, n: nat)
    ensures Run(s, n + 1) == Step(Run(s, n))
  {
    hide Step;
    RunAdd(s, n, 1);
    assert Run(Run(s, n), 1) == Run(Step(Run(s, n)), 0);
  }

  lemma RunFrozen(s: State, n: nat, more: nat)
    requires n <= more && (n == more || !Live(Run(s, n)))
    ensures Run(s, more) == Run(s, n)
  {
    hide Step;
    RunAdd(s, n, more - n);
    if n < more { RunStopped(Run(s, n), more - n); }
  }
}
