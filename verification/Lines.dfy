/** Assembly lines over every kind of operand: the bytes of each, and what a round of the byte machine does when it
    comes to them in memory. Only the operands themselves are named, neither their type bytes nor their decoding. */
module Lines {
  import opened Bytes
  import opened Asm
  import opened Isa
  import opened Assembler
  import Vm
  import Heap
  import Refinement

  // ----- bytes -----

  /** Opcodes: computing, */
  lemma ComputingOpcodes()
    ensures OpcodeOf(NOP, 0) == Some(0x00) && OpcodeOf(MOV, 2) == Some(0x12)
    ensures OpcodeOf(ADD, 2) == Some(0x32) && OpcodeOf(SUB, 2) == Some(0x52)
    ensures OpcodeOf(MUL, 2) == Some(0x72) && OpcodeOf(DIV, 2) == Some(0x92)
    ensures OpcodeOf(CMP, 2) == Some(0xB2) && OpcodeOf(HALT, 0) == Some(0xFF)
  {
  }

  /** jumps, the stack and the heap, */
  lemma ControlOpcodes()
    ensures OpcodeOf(JMP, 1) == Some(0x31) && OpcodeOf(JE, 1) == Some(0x41) && OpcodeOf(JNE, 1) == Some(0x51)
    ensures OpcodeOf(JG, 1) == Some(0x61) && OpcodeOf(JNG, 1) == Some(0x71)
    ensures OpcodeOf(CALL, 1) == Some(0xB1) && OpcodeOf(RET, 0) == Some(0x20)
  {
  }

  lemma MemoryOpcodes()
    ensures OpcodeOf(SPUSH, 1) == Some(0x81) && OpcodeOf(SPOP, 1) == Some(0x91)
    ensures OpcodeOf(HALLOC, 2) == Some(0xC2) && OpcodeOf(HFREE, 1) == Some(0xA1)
  {
  }

  /** and the streams and the frame buffer. */
  lemma StreamOpcodes()
    ensures OpcodeOf(INPUT, 1) == Some(0x21) && OpcodeOf(PRINT, 1) == Some(0x01) && OpcodeOf(PRINTFLUSH, 0) == Some(0x10)
    ensures OpcodeOf(FBSET, 2) == Some(0xD2) && OpcodeOf(FBSYNC, 0) == Some(0x30)
  {
  }

  /** The instructions of the table. */
  predicate Covered(line: Line) { line.Ins? && OpcodeOf(line.m, |line.args|).Some? }

  /** The instruction table, as bytes. The low half of an opcode counts the operands, except for HALT. */
  function CodeOf(m: Mnemonic): Byte {
    match m
    case MOV => 0x12
    case ADD => 0x32
    case SUB => 0x52
    case MUL => 0x72
    case DIV => 0x92
    case CMP => 0xB2
    case PRINT => 0x01
    case INPUT => 0x21
    case JMP => 0x31
    case JE => 0x41
    case JNE => 0x51
    case JG => 0x61
    case JNG => 0x71
    case PRINTFLUSH => 0x10
    case HALT => 0xFF
    case SPUSH => 0x81
    case SPOP => 0x91
    case CALL => 0xB1
    case RET => 0x20
    case HALLOC => 0xC2
    case HFREE => 0xA1
    case FBSET => 0xD2
    case FBSYNC => 0x30
    case _ => 0x00
  }

  /** Nothing else is in the table. */
  lemma CoveredCode(line: Line)
    requires line.Ins?
    ensures Covered(line) <==> !line.m.Unknown? && |line.args| == if line.m.HALT? then 0 else CodeOf(line.m) % 16
    ensures Covered(line) ==> OpcodeOf(line.m, |line.args|) == Some(CodeOf(line.m))
  {
  }

  function RegisterNumber(r: Reg): Byte { if r == A then 1 else if r == B then 2 else if r == C then 3 else 4 }

  /** The bytes of numerals and of bracketed numbers. */
  lemma NumeralBytes(lines: seq<Line>, n: int)
    ensures 0 <= n <= 255 ==> EncodeArg(lines, Num(n)) == [0, n]
    ensures n < 0 ==> EncodeArg(lines, Num(n)) == [0, n % 256]
    ensures 255 < n <= 65535 ==> EncodeArg(lines, Num(n)) == [6, n / 256, n % 256]
    ensures 0 <= n <= 65535 ==> EncodeArg(lines, Mem(n)) == [4, n / 256, n % 256]
  {
    SplitWrapped(n);
  }

  /** The bytes of registers and labels, plain and in brackets. */
  lemma NameBytes(lines: seq<Line>, r: Reg, l: Label)
    ensures EncodeArg(lines, Direct(r)) == [1, RegisterNumber(r)]
    ensures EncodeArg(lines, At(r)) == [3, RegisterNumber(r)]
    ensures var at := AddressOf(lines, l);
      && EncodeArg(lines, Ref(l)) == [2, at / 256, at % 256]
      && EncodeArg(lines, RefAt(l)) == [5, at / 256, at % 256]
  {
    hide AddressOf;
  }

  /** `MOV [134], A`, `MOV A, 48`, `MOV [B], A`, `SUB [A], 1` and `CMP C, 300`. */
  lemma LineBytes(lines: seq<Line>)
    ensures Encode(lines, Ins(MOV, [Mem(134), Direct(A)])) == [0x12, 4, 0, 134, 1, 1]
    ensures Encode(lines, Ins(MOV, [Direct(A), Num(48)])) == [0x12, 1, 1, 0, 48]
    ensures Encode(lines, Ins(MOV, [At(B), Direct(A)])) == [0x12, 3, 2, 1, 1]
    ensures Encode(lines, Ins(SUB, [At(A), Num(1)])) == [0x52, 3, 1, 0, 1]
    ensures Encode(lines, Ins(CMP, [Direct(C), Num(300)])) == [0xB2, 1, 3, 6, 1, 44]
  {
    hide *;
    ComputingOpcodes();
    NumeralBytes(lines, 134);
    NumeralBytes(lines, 48);
    NumeralBytes(lines, 1);
    NumeralBytes(lines, 300);
    RegisterBytes(lines);
    TwoOperands(lines, MOV, Mem(134), Direct(A));
    TwoOperands(lines, MOV, Direct(A), Num(48));
    TwoOperands(lines, MOV, At(B), Direct(A));
    TwoOperands(lines, SUB, At(A), Num(1));
    TwoOperands(lines, CMP, Direct(C), Num(300));
  }

  lemma RegisterBytes(lines: seq<Line>)
    ensures EncodeArg(lines, Direct(A)) == [1, 1] && EncodeArg(lines, At(A)) == [3, 1]
    ensures EncodeArg(lines, At(B)) == [3, 2] && EncodeArg(lines, Direct(C)) == [1, 3]
  {
  }

  lemma TwoOperands(lines: seq<Line>, m: Mnemonic, a: Operand, b: Operand)
    requires OpcodeOf(m, 2).Some?
    ensures Encode(lines, Ins(m, [a, b])) == [OpcodeOf(m, 2).value] + (EncodeArg(lines, a) + EncodeArg(lines, b))
  {
    hide EncodeArg, EncodeArgs, OpcodeOf;
    TwoArgs(lines, a, b);
  }

  lemma TwoArgs(lines: seq<Line>, a: Operand, b: Operand)
    ensures EncodeArgs(lines, [a, b]) == EncodeArg(lines, a) + EncodeArg(lines, b)
  {
    hide EncodeArg;
    assert [a, b][1..] == [b];
    assert EncodeArgs(lines, [b]) == EncodeArg(lines, b) + [];
  }

  /** The first two bytes: where the code of `start` lands, or 2 when no line defines it. */
  lemma {:induction false} HeaderIs(lines: seq<Line>)
    requires Known(lines) && WideCount(lines) == 0 && |Assembled(lines)| < 0x1_0000
    ensures Header(lines) ==
      var i := LabelAt(lines, Start);
      if i < 0 then [0, 2] else [Landed(lines, i) / 256 % 256, Landed(lines, i) % 256]
  {
    hide EncodeAll, ReservedAll, WideCount;
    var i := LabelAt(lines, Start);
    if i >= 0 {
      LayoutDrift(lines, i);
      LandedInside(lines, i);
      NarrowHasNoWide(lines);
      NarrowHasNoWide(lines[..i]);
    }
  }

  /** An operand needs its label to be defined by a line, unless it is `start`: that is always known, and 0 when no line
      defines it. */
  lemma {:induction false} NeededLabels(lines: seq<Line>, l: Label)
    ensures ResolvedArg(lines, Ref(l)) <==> l == Start || Mark(l) in lines
    ensures ResolvedArg(lines, RefAt(l)) <==> l == Start || Mark(l) in lines
    ensures Mark(Start) !in lines ==>
      EncodeArg(lines, Ref(Start)) == [2, 0, 0] && EncodeArg(lines, RefAt(Start)) == [5, 0, 0]
  {
    hide LabelAt;
    var i := LabelAt(lines, l);
    var j := LabelAt(lines, Start);
    NameBytes(lines, A, Start);
  }

  // ----- places and values -----

  /** What an operand denotes in a process: a register, a byte of memory, or nothing. */
  datatype Place = InRegister(i: nat) | InMemory(at: nat) | Nowhere

  /** A register; the cell behind a register, a number or a label; the byte at a label. All offsets count from the
      first byte of the process, with numbers and label addresses truncated to 16 bits. */
  function PlaceOf(s: Vm.State, lines: seq<Line>, op: Operand): Place
    requires |s.regs| == 5
  {
    var base := s.proc.firstSector;
    match op
    case Num(_) => Nowhere
    case Direct(r) => InRegister(RegisterNumber(r) - 1)
    case At(r) => InMemory(base + s.regs[RegisterNumber(r) - 1])
    case Mem(n) => InMemory((base + n) % 65536)
    case Ref(l) => InMemory((base + AddressOf(lines, l)) % 65536)
    case RefAt(l) =>
      var p := (base + AddressOf(lines, l)) % 65536;
      if p + 1 < |s.ram| then var high: int := s.ram[p]; InMemory(base + 256 * high + s.ram[p + 1]) else Nowhere
  }

  /** Memory ends before the place. */
  predicate Outside(s: Vm.State, p: Place) { p.InMemory? && p.at >= |s.ram| }

  function Held(s: Vm.State, p: Place): Byte
    requires |s.regs| == 5
  {
    match p
    case InRegister(i) => if i < 5 then s.regs[i] else 0
    case InMemory(at) => if at < |s.ram| then s.ram[at] else 0
    case Nowhere => 0
  }

  function With(s: Vm.State, p: Place, v: Byte): Vm.State
    requires |s.regs| == 5
  {
    match p
    case InRegister(i) => if i < 5 then s.(regs := s.regs[i := v]) else s
    case InMemory(at) => if at < |s.ram| then s.(ram := s.ram[at := v]) else s
    case Nowhere => s
  }

  /** The operand has a value: a numeral up to 255, or a place inside memory. */
  predicate HasValue(s: Vm.State, lines: seq<Line>, op: Operand)
    requires |s.regs| == 5
  {
    if op.Num? then op.n <= 255 else IsPlace(s, lines, op)
  }

  /** The operand can be stored to. */
  predicate IsPlace(s: Vm.State, lines: seq<Line>, op: Operand)
    requires |s.regs| == 5
  {
    var p := PlaceOf(s, lines, op);
    !p.Nowhere? && !Outside(s, p)
  }

  function ValueOf(s: Vm.State, lines: seq<Line>, op: Operand): Byte
    requires |s.regs| == 5
  {
    if op.Num? then op.n % 256 else Held(s, PlaceOf(s, lines, op))
  }

  /** What the machine resolves, by type byte. */
  lemma ResolveByType(s: Vm.State, typ: Byte, v: Word)
    requires |s.regs| == 5
    ensures typ == 0 || typ == 6 ==> Vm.Resolve(s, RawArg(typ, v)) == Vm.NoLoc(Vm.UnknownType)
    ensures typ == 1 && 1 <= v <= 5 ==> Vm.Resolve(s, RawArg(typ, v)) == Vm.RegAt(v - 1)
    ensures typ == 2 || typ == 4 ==> Vm.Resolve(s, RawArg(typ, v)) == CellOr(s, (v + s.proc.firstSector) % 65536)
    ensures typ == 3 && 1 <= v <= 5 ==> Vm.Resolve(s, RawArg(typ, v)) == CellOr(s, s.proc.firstSector + s.regs[v - 1])
    ensures typ == 5 ==>
      var p := (v + s.proc.firstSector) % 65536;
      Vm.Resolve(s, RawArg(typ, v))
        == if p + 1 < |s.ram| then CellOr(s, s.proc.firstSector + Join(s.ram[p], s.ram[p + 1])) else Vm.NoLoc(Vm.Undefined)
  {
    hide Join;
  }

  function CellOr(s: Vm.State, at: nat): Vm.Loc { if at < |s.ram| then Vm.CellAt(at) else Vm.NoLoc(Vm.Undefined) }

  /** Resolving an encoded operand finds its place. */
  lemma {:induction false} ResolveFinds(s: Vm.State, lines: seq<Line>, op: Operand)
    requires |s.regs| == 5
    ensures var loc := Vm.Resolve(s, RawOf(lines, op)); var p := PlaceOf(s, lines, op);
      && (!IsPlace(s, lines, op) ==> loc == Vm.NoLoc(Trouble(op)))
      && (IsPlace(s, lines, op) ==> loc == if p.InRegister? then Vm.RegAt(p.i) else Vm.CellAt(p.at))
  {
    hide AddressOf, Join, Vm.Resolve;
    var raw := RawOf(lines, op);
    ResolveByType(s, raw.typ, raw.value);
    match op
    case Num(_) =>
    case Direct(_) =>
    case At(_) =>
    case Mem(n) => ModAdd(n, s.proc.firstSector);
    case Ref(_) =>
    case RefAt(l) =>
      var p := (s.proc.firstSector + AddressOf(lines, l)) % 65536;
      if p + 1 < |s.ram| { JoinIs(s.ram[p], s.ram[p + 1]); }
  }

  lemma ModAdd(n: int, k: int)
    ensures (n % 65536 + k) % 65536 == (k + n) % 65536
  {
    assert n == 65536 * (n / 65536) + n % 65536;
    ModShift(n % 65536 + k, n / 65536);
  }

  lemma ModShift(x: int, k: int)
    ensures (x + 65536 * k) % 65536 == x % 65536
  {
  }

  /** Reading and storing through an encoded operand. */
  lemma OperandMeans(s: Vm.State, lines: seq<Line>, op: Operand, v: Byte)
    requires |s.regs| == 5
    ensures var raw := RawOf(lines, op);
      && Vm.ReadArg(s, raw) == (if HasValue(s, lines, op) then Vm.Val(ValueOf(s, lines, op)) else Vm.Err(Trouble(op)))
      && Vm.Deref(s, raw) == (if IsPlace(s, lines, op) then Vm.Val(Held(s, PlaceOf(s, lines, op))) else Vm.Err(Trouble(op)))
      && Shows(Stored(s, lines, op, v), Vm.Assign(s, raw, v))
  {
    hide Vm.Resolve, PlaceOf;
    ResolveFinds(s, lines, op);
    Vm.ResolveValid(s, RawOf(lines, op));
    RawOfNumeral(lines, op);
    PlaceOfRegister(s, lines, op);
    hide RawOf;
  }

  lemma RawOfNumeral(lines: seq<Line>, op: Operand)
    ensures RawOf(lines, op).typ == 0 <==> op.Num? && op.n <= 255
    ensures op.Num? && op.n <= 255 ==> RawOf(lines, op) == RawArg(0, op.n % 256)
  {
    hide AddressOf;
  }

  lemma PlaceOfRegister(s: Vm.State, lines: seq<Line>, op: Operand)
    requires |s.regs| == 5
    ensures op.Num? ==> PlaceOf(s, lines, op) == Nowhere
    ensures PlaceOf(s, lines, op).InRegister? ==> PlaceOf(s, lines, op).i < 4
  {
    hide AddressOf;
  }

  // ----- lines -----

  function Calculated(m: Mnemonic, x: int, y: int): Byte
    requires m in {ADD, SUB, MUL, DIV} && 0 <= x < 256 && 0 <= y < 256 && (m.DIV? ==> y > 0)
  {
    if m.ADD? then (x + y) % 256
    else if m.SUB? then (x - y) % 256
    else if m.MUL? then (x * y) % 256
    else
      Quotient(x, y);
      x / y
  }

  lemma Quotient(x: int, y: int)
    requires 0 <= x < 256 && 0 < y < 256
    ensures 0 <= x / y < 256
  {
  }

  /** Whether the flags of the last comparison let a jump be taken. */
  predicate Taken(s: Vm.State, m: Mnemonic) {
    m.JMP? || (m.JE? && s.zero) || (m.JNE? && !s.zero) || (m.JG? && s.sign) || (m.JNG? && !s.sign)
  }

  function JumpedTo(s: Vm.State, offset: Word): Vm.State {
    s.(proc := s.proc.(pc := (s.proc.firstSector + offset) % 65536))
  }

  /** What a round does: the next state, or an exception. */
  datatype Outcome = Gives(state: Vm.State) | Throws(error: Vm.Error)

  /** Why an operand has no value, or is no place: a numeral above 255, or any numeral, has an unknown type; others
      lie outside memory. */
  function Trouble(op: Operand): Vm.Error { if op.Num? then Vm.UnknownType else Vm.Undefined }

  function Stored(s: Vm.State, lines: seq<Line>, op: Operand, v: Byte): Outcome
    requires |s.regs| == 5
  {
    if IsPlace(s, lines, op) then Gives(With(s, PlaceOf(s, lines, op), v)) else Throws(Trouble(op))
  }

  /** What a line does to the state whose counter is already behind it. The second operand is looked at first, except
      by CMP. */
  function Meaning(s: Vm.State, lines: seq<Line>, line: Line): Outcome
    requires |s.regs| == 5 && Covered(line)
  {
    var args := line.args;
    match line.m
    case NOP => Gives(s)
    case HALT => Gives(s.(status := Vm.Halted))
    case PRINTFLUSH => Gives(s.(output := s.output + [10]))
    case PRINT =>
      if HasValue(s, lines, args[0]) then Gives(s.(output := s.output + [ValueOf(s, lines, args[0])]))
      else Throws(Trouble(args[0]))
    case INPUT =>
      if s.input == [] then Stored(s, lines, args[0], 0)
      else Stored(s.(input := s.input[1..]), lines, args[0], s.input[0] % 256)
    case MOV =>
      if HasValue(s, lines, args[1]) then Stored(s, lines, args[0], ValueOf(s, lines, args[1]))
      else Throws(Trouble(args[1]))
    case CMP =>
      if !HasValue(s, lines, args[0]) then Throws(Trouble(args[0]))
      else if !HasValue(s, lines, args[1]) then Throws(Trouble(args[1]))
      else
        var (x, y) := (ValueOf(s, lines, args[0]), ValueOf(s, lines, args[1]));
        Gives(s.(zero := x == y, sign := x > y))
    case ADD | SUB | MUL | DIV => Updated(s, lines, line)
    case JMP | JE | JNE | JG | JNG => Transferred(s, lines, line)
    case SPUSH =>
      if HasValue(s, lines, args[0]) then Pushed(s, PushedBytes(args[0], ValueOf(s, lines, args[0])))
      else Throws(Trouble(args[0]))
    case SPOP => Popped(s, lines, args[0])
    case CALL => if args[0].Ref? then Called(s, AddressOf(lines, args[0].l)) else Throws(Vm.CallOfNonLabel)
    case RET => Returned(s)
    case HALLOC =>
      if HasValue(s, lines, args[1]) then Allocated(s, lines, args[0], ValueOf(s, lines, args[1]))
      else Throws(Trouble(args[1]))
    case HFREE =>
      if args[0].Ref? then Released(s, AddressOf(lines, args[0].l))
      else if IsPlace(s, lines, args[0]) then Released(s, ValueOf(s, lines, args[0]))
      else Throws(Trouble(args[0]))
    case FBSET => Throws(Vm.NotGraphical)
    case _ => Throws(Vm.Undefined)
  }

  /** Operands that the stack holds in two bytes: whatever is written with an address. */
  predicate Doubled(op: Operand) { op.Mem? || op.Ref? || op.RefAt? }

  function PushedBytes(op: Operand, v: Byte): seq<Byte> { if Doubled(op) then [0, v] else [v] }

  /** The stack grows down, in 16 bits, to its limit. */
  function Pushed(s: Vm.State, bytes: seq<Byte>): Outcome
    requires 1 <= |bytes| <= 2
  {
    var sp := (s.proc.sp - |bytes|) % 65536;
    if sp < s.proc.stackLimit then Throws(Vm.StackOverflow)
    else if sp + |bytes| > |s.ram| then Throws(Vm.Undefined)
    else
      var ram := s.ram[sp := bytes[0]];
      Gives(s.(ram := if |bytes| == 1 then ram else ram[sp + 1 := bytes[1]], proc := s.proc.(sp := sp)))
  }

  /** A pop takes one byte or two, and stores the last of them. */
  function Popped(s: Vm.State, lines: seq<Line>, op: Operand): Outcome
    requires |s.regs| == 5
  {
    var sp := s.proc.sp + if Doubled(op) then 2 else 1;
    if sp > s.proc.firstSector + s.proc.memory then Throws(Vm.StackUnderflow)
    else if sp > |s.ram| then Throws(Vm.Undefined)
    else
      match Stored(s, lines, op, s.ram[sp - 1])
      case Throws(e) => Throws(e)
      case Gives(t) => Gives(t.(proc := s.proc.(sp := sp % 65536)))
  }

  /** CALL goes to the address itself, without the first byte of the process. */
  function Called(s: Vm.State, at: Word): Outcome {
    match Pushed(s, [s.proc.pc / 256, s.proc.pc % 256])
    case Throws(e) => Throws(e)
    case Gives(t) => Gives(t.(proc := t.proc.(pc := at)))
  }

  function Returned(s: Vm.State): Outcome {
    var sp := s.proc.sp;
    if sp + 2 > s.proc.firstSector + s.proc.memory then Throws(Vm.StackUnderflow)
    else if sp + 2 > |s.ram| then Throws(Vm.Undefined)
    else
      var high: int := s.ram[sp];
      Gives(s.(proc := s.proc.(sp := (sp + 2) % 65536, pc := 256 * high + s.ram[sp + 1])))
  }

  /** HALLOC stores the low byte of the address of the block that first fit finds. */
  function Allocated(s: Vm.State, lines: seq<Line>, op: Operand, n: Byte): Outcome
    requires |s.regs| == 5
  {
    match Heap.Halloc(s.ram, s.proc.heapStart, s.proc.heapLimit, n)
    case Allocated(ram, ptr) => Stored(s.(ram := ram), lines, op, ptr % 256)
    case HeapOverflow => Throws(Vm.HeapOverflow)
    case HallocCorrupt => Throws(Vm.Undefined)
  }

  function Released(s: Vm.State, ptr: Word): Outcome {
    match Heap.Hfree(s.ram, s.proc.heapStart, s.proc.heapLimit, ptr)
    case Freed(ram) => Gives(s.(ram := ram))
    case NotOwnedBlock => Throws(Vm.FreeOfFree)
    case HfreeCorrupt => Throws(Vm.Undefined)
  }

  /** Arithmetic: the first operand is combined with the second. */
  function Updated(s: Vm.State, lines: seq<Line>, line: Line): Outcome
    requires |s.regs| == 5 && Covered(line) && line.m in {ADD, SUB, MUL, DIV}
  {
    var (dest, src) := (line.args[0], line.args[1]);
    if !HasValue(s, lines, src) then Throws(Trouble(src))
    else if line.m.DIV? && ValueOf(s, lines, src) == 0 then Throws(Vm.DivideByZero)
    else if !IsPlace(s, lines, dest) then Throws(Trouble(dest))
    else
      var p := PlaceOf(s, lines, dest);
      Gives(With(s, p, Calculated(line.m, Held(s, p), ValueOf(s, lines, src))))
  }

  /** Jumps: to the address of a label, to a numeral (not JMP), or to the offset that a place holds. */
  function Transferred(s: Vm.State, lines: seq<Line>, line: Line): Outcome
    requires |s.regs| == 5 && Covered(line) && line.m in {JMP, JE, JNE, JG, JNG}
  {
    var op := line.args[0];
    if !Taken(s, line.m) then Gives(s)
    else if op.Ref? then Gives(JumpedTo(s, AddressOf(lines, op.l)))
    else if HasValue(s, lines, op) && !(line.m.JMP? && op.Num?) then Gives(JumpedTo(s, ValueOf(s, lines, op)))
    else Throws(Trouble(op))
  }

  /** The bytes of the line are next. */
  ghost predicate Comes(s: Vm.State, lines: seq<Line>, line: Line) {
    && Vm.Live(s) && |s.regs| == 5 && Covered(line)
    && Holds(s.ram, s.proc.pc, Encode(lines, line)) && s.proc.pc + |Encode(lines, line)| < 65536
  }

  /** `t` is the state of the outcome, or one that has thrown its exception. */
  predicate Shows(outcome: Outcome, t: Vm.State) {
    match outcome
    case Gives(state) => t == state
    case Throws(error) => t.status == Vm.Fault(error)
  }

  /** A round at the bytes of a line does what the line means, for every mnemonic covered and every operand. */
  lemma {:induction false} RoundMeans(s: Vm.State, lines: seq<Line>, line: Line)
    requires Comes(s, lines, line)
    ensures Shows(Meaning(s.(proc := s.proc.(pc := s.proc.pc + |Encode(lines, line)|)), lines, line), Vm.Step(s))
  {
    hide Vm.Step, Vm.Dispatch, Encode, Fetch, Meaning, Holds;
    var next := s.proc.pc + |Encode(lines, line)|;
    FetchEncoded(s.ram, s.proc.pc, lines, line);
    Refinement.StepFetched(s, Refinement.FetchedLine(lines, line), next);
    LineMeans(s.(proc := s.proc.(pc := next)), lines, line);
  }

  /** So does a round at line `i` of an assembled program in memory, which ends behind that line unless it jumps. */
  lemma {:induction false} ProgramLine(s: Vm.State, lines: seq<Line>, i: nat)
    requires Known(lines) && i < |lines| && lines[i].Ins?
    requires Vm.Live(s) && |s.regs| == 5 && |s.ram| < 65536
    requires Holds(s.ram, s.proc.firstSector, Assembled(lines))
    requires s.proc.pc == s.proc.firstSector + Landed(lines, i)
    ensures s.proc.firstSector + Landed(lines, i + 1) < 65536
    ensures Shows(Meaning(s.(proc := s.proc.(pc := s.proc.firstSector + Landed(lines, i + 1))), lines, lines[i]), Vm.Step(s))
  {
    hide Assembled, Landed, Encode, Meaning, Vm.Step, Holds, OpcodeOf;
    Refinement.LineHolds(lines, i);
    Refinement.LandedNext(lines, i);
    Within(s.ram, s.proc.firstSector, Assembled(lines), Landed(lines, i), Encode(lines, lines[i]));
    RoundMeans(s, lines, lines[i]);
  }

  /** A part of what memory holds. */
  lemma Within(ram: seq<Byte>, f: nat, bytes: seq<Byte>, at: nat, part: seq<Byte>)
    requires Holds(ram, f, bytes) && Holds(bytes, at, part)
    ensures Holds(ram, f + at, part) && f + at + |part| <= |ram|
  {
    forall j | 0 <= j < |part| ensures ram[f + at + j] == part[j] {
      HoldsByte(bytes, at, part, j);
      HoldsByte(ram, f, bytes, at + j);
    }
    assert ram[f + at..f + at + |part|] == part;
  }

  /** A byte that is no opcode of the table throws. */
  lemma {:induction false} NoInstruction(s: Vm.State)
    requires Vm.Live(s) && s.proc.pc < |s.ram| && forall m, n :: OpcodeOf(m, n) != Some(s.ram[s.proc.pc])
    ensures Vm.Step(s) == s.(proc := s.proc.(pc := (s.proc.pc + 1) % 65536), status := Vm.Fault(Vm.InvalidOpcode))
  {
    hide OpcodeOf;
    ComputingOpcodes();
    ControlOpcodes();
    MemoryOpcodes();
    StreamOpcodes();
    assert FetchArgs(s.ram, s.proc.pc + 1, 0) == Some(([], s.proc.pc + 1));
  }

  /** Rounds happen while the process runs and its counter is in front of the end of its code: at a NOP the counter
      moves on, and outside nothing changes any more. */
  lemma RoundOrNot(s: Vm.State)
    ensures s.status != Vm.Running || s.proc.pc >= s.proc.lastCode ==> forall n :: Vm.Run(s, n) == s
    ensures s.status == Vm.Running && s.proc.pc < s.proc.lastCode && s.proc.pc < |s.ram| && s.ram[s.proc.pc] == 0 ==>
      Vm.Step(s) == s.(proc := s.proc.(pc := (s.proc.pc + 1) % 65536))
  {
    if !Vm.Live(s) {
      forall n ensures Vm.Run(s, n) == s { Vm.RunStopped(s, n); }
    } else if s.proc.pc < |s.ram| && s.ram[s.proc.pc] == 0 {
      FetchNop(s.ram, s.proc.pc);
      hide Vm.Run;
    }
  }

  /** A type byte above 6 is an operand of its own without a value, and no place. */
  lemma UnknownTypes(s: Vm.State, pc: nat)
    requires pc < |s.ram| && s.ram[pc] > 6
    ensures FetchArg(s.ram, pc) == Some((RawArg(s.ram[pc], 0), pc + 1))
    ensures Vm.ReadArg(s, RawArg(s.ram[pc], 0)) == Vm.Err(Vm.UnknownType)
    ensures forall v :: Vm.Assign(s, RawArg(s.ram[pc], 0), v).status == Vm.Fault(Vm.UnknownType)
  {
  }

  /** An encoded line is fetched with its opcode and its operands in order. */
  lemma {:induction false} FetchedIs(lines: seq<Line>, line: Line)
    requires Covered(line)
    ensures var f := Refinement.FetchedLine(lines, line);
      && f.opcode == CodeOf(line.m) && Arity(f.opcode) == |line.args|
      && f.args == match |line.args|
         case 0 => []
         case 1 => [RawOf(lines, line.args[0])]
         case _ => [RawOf(lines, line.args[0]), RawOf(lines, line.args[1])]
  {
    hide RawArgs, RawOf, Arity, OpcodeOf;
    CoveredCode(line);
    OpcodeArity(line.m, |line.args|);
    Refinement.RawArgsOf(lines, line.args);
  }

  lemma {:induction false} LineMeans(s: Vm.State, lines: seq<Line>, line: Line)
    requires |s.regs| == 5 && s.status.Running? && Covered(line)
    ensures var f := Refinement.FetchedLine(lines, line);
      |f.args| == Arity(f.opcode) && Shows(Meaning(s, lines, line), Vm.Dispatch(s, f))
  {
    hide Vm.Dispatch, RawOf, Meaning, Refinement.FetchedLine, Shows, Arity;
    FetchedIs(lines, line);
    CoveredCode(line);
    if line.m in {NOP, HALT, PRINTFLUSH, FBSET, FBSYNC} {
      ConstantMeans(s, lines, line);
    } else if line.m in {JMP, JE, JNE, JG, JNG, CALL, RET} {
      TransferMeans(s, lines, line);
    } else if line.m in {SPUSH, SPOP, HALLOC, HFREE} {
      MemoryMeans(s, lines, line);
    } else {
      ComputingMeans(s, lines, line);
    }
  }

  lemma {:induction false} ConstantMeans(s: Vm.State, lines: seq<Line>, line: Line)
    requires |s.regs| == 5 && Covered(line) && line.m in {NOP, HALT, PRINTFLUSH, FBSET, FBSYNC}
    requires Arity(CodeOf(line.m)) == |line.args|
    ensures forall args :: |args| == |line.args| ==> Shows(Meaning(s, lines, line), Vm.Dispatch(s, Fetched(CodeOf(line.m), args)))
  {
    hide Arity, OpcodeOf;
  }

  lemma TransferMeans(s: Vm.State, lines: seq<Line>, line: Line)
    requires |s.regs| == 5 && s.status.Running? && Covered(line) && line.m in {JMP, JE, JNE, JG, JNG, CALL, RET}
    requires Arity(CodeOf(line.m)) == |line.args|
    requires |line.args| == if line.m.RET? then 0 else 1
    ensures Shows(Meaning(s, lines, line),
      Vm.Dispatch(s, Fetched(CodeOf(line.m), if line.m.RET? then [] else [RawOf(lines, line.args[0])])))
  {
    hide RawOf, Vm.Jump, Vm.JumpIf, Vm.Call, Vm.Return, Arity, OpcodeOf, Transferred, Called, Returned, Shows;
    if line.m.JMP? {
      JumpMeans(s, lines, line);
    } else if line.m.CALL? {
      CallMeans(s, lines, line);
    } else if line.m.RET? {
      ReturnMeans(s);
    } else {
      JumpIfMeans(s, lines, line);
    }
  }

  lemma MemoryMeans(s: Vm.State, lines: seq<Line>, line: Line)
    requires |s.regs| == 5 && s.status.Running? && Covered(line) && line.m in {SPUSH, SPOP, HALLOC, HFREE}
    requires Arity(CodeOf(line.m)) == |line.args|
    requires |line.args| == if line.m.HALLOC? then 2 else 1
    ensures Shows(Meaning(s, lines, line), Vm.Dispatch(s, Fetched(CodeOf(line.m),
      if line.m.HALLOC? then [RawOf(lines, line.args[0]), RawOf(lines, line.args[1])] else [RawOf(lines, line.args[0])])))
  {
    hide RawOf, Meaning, Vm.Push, Vm.Pop, Vm.Alloc, Vm.Release, Arity, OpcodeOf, Shows;
    match line.m
    case SPUSH => PushMeans(s, lines, line);
    case SPOP => PopMeans(s, lines, line);
    case HALLOC => AllocMeans(s, lines, line);
    case HFREE => ReleaseMeans(s, lines, line);
  }

  lemma ComputingMeans(s: Vm.State, lines: seq<Line>, line: Line)
    requires |s.regs| == 5 && s.status.Running? && Covered(line)
    requires line.m in {MOV, PRINT, INPUT, CMP, ADD, SUB, MUL, DIV} && Arity(CodeOf(line.m)) == |line.args|
    requires |line.args| == if line.m in {PRINT, INPUT} then 1 else 2
    ensures Shows(Meaning(s, lines, line), Vm.Dispatch(s, Fetched(CodeOf(line.m),
      if |line.args| == 1 then [RawOf(lines, line.args[0])] else [RawOf(lines, line.args[0]), RawOf(lines, line.args[1])])))
  {
    hide RawOf, Meaning, Vm.Combine, Vm.Compare, Vm.Print, Vm.Move, Vm.Input, Arity, OpcodeOf, Shows, Updated;
    MeaningIs(s, lines, line);
    match line.m
    case MOV => MoveMeans(s, lines, line);
    case PRINT => PrintMeans(s, lines, line);
    case INPUT => InputMeans(s, lines, line);
    case CMP => CompareMeans(s, lines, line);
    case ADD => CombineMeans(s, lines, line, Vm.Add);
    case SUB => CombineMeans(s, lines, line, Vm.Sub);
    case MUL => CombineMeans(s, lines, line, Vm.Mul);
    case DIV => CombineMeans(s, lines, line, Vm.Div);
  }

  lemma MoveMeans(s: Vm.State, lines: seq<Line>, line: Line)
    requires |s.regs| == 5 && s.status.Running? && Covered(line) && line.m.MOV? && |line.args| == 2
    ensures Shows(Meaning(s, lines, line), Vm.Move(s, RawOf(lines, line.args[0]), RawOf(lines, line.args[1])))
  {
    hide HasValue, IsPlace, PlaceOf, ValueOf, Held, With, RawOf, Vm.Assign, Vm.ReadArg;
    OperandMeans(s, lines, line.args[1], 0);
    OperandMeans(s, lines, line.args[0], ValueOf(s, lines, line.args[1]));
  }

  lemma PrintMeans(s: Vm.State, lines: seq<Line>, line: Line)
    requires |s.regs| == 5 && Covered(line) && line.m.PRINT? && |line.args| == 1
    ensures Shows(Meaning(s, lines, line), Vm.Print(s, RawOf(lines, line.args[0])))
  {
    hide HasValue, IsPlace, PlaceOf, ValueOf, Held, With, RawOf, Vm.Assign, Vm.ReadArg;
    OperandMeans(s, lines, line.args[0], 0);
  }

  lemma InputMeans(s: Vm.State, lines: seq<Line>, line: Line)
    requires |s.regs| == 5 && Covered(line) && line.m.INPUT? && |line.args| == 1
    ensures Shows(Meaning(s, lines, line), Vm.Input(s, RawOf(lines, line.args[0])))
  {
    hide IsPlace, PlaceOf, ValueOf, Held, With, RawOf, Vm.Assign, Vm.ReadArg;
    var op := line.args[0];
    if s.input == [] {
      OperandMeans(s, lines, op, 0);
    } else {
      OperandMeans(s.(input := s.input[1..]), lines, op, s.input[0] % 256);
      PlaceStays(s, lines, op, s.input[1..]);
    }
  }

  /** Operands do not depend on the input. */
  lemma PlaceStays(s: Vm.State, lines: seq<Line>, op: Operand, input: seq<int>)
    requires |s.regs| == 5
    ensures PlaceOf(s.(input := input), lines, op) == PlaceOf(s, lines, op)
    ensures IsPlace(s.(input := input), lines, op) == IsPlace(s, lines, op)
  {
    hide AddressOf;
  }

  lemma CompareMeans(s: Vm.State, lines: seq<Line>, line: Line)
    requires |s.regs| == 5 && Covered(line) && line.m.CMP? && |line.args| == 2
    ensures Shows(Meaning(s, lines, line), Vm.Compare(s, RawOf(lines, line.args[0]), RawOf(lines, line.args[1])))
  {
    hide HasValue, IsPlace, PlaceOf, ValueOf, Held, With, RawOf, Vm.Assign, Vm.ReadArg;
    OperandMeans(s, lines, line.args[0], 0);
    OperandMeans(s, lines, line.args[1], 0);
  }

  lemma CombineMeans(s: Vm.State, lines: seq<Line>, line: Line, op: Vm.Arith)
    requires |s.regs| == 5 && Covered(line) && |line.args| == 2
    requires line.m == match op case Add => ADD case Sub => SUB case Mul => MUL case Div => DIV
    ensures Shows(Updated(s, lines, line), Vm.Combine(s, op, RawOf(lines, line.args[0]), RawOf(lines, line.args[1])))
  {
    hide HasValue, IsPlace, PlaceOf, ValueOf, Held, With, RawOf, Vm.Assign, Vm.ReadArg, Vm.Deref;
    var (dest, src) := (line.args[0], line.args[1]);
    OperandMeans(s, lines, src, 0);
    OperandMeans(s, lines, dest, 0);
    if Updated(s, lines, line).Gives? {
      OperandMeans(s, lines, dest, Calculated(line.m, Held(s, PlaceOf(s, lines, dest)), ValueOf(s, lines, src)));
    }
  }

  lemma JumpMeans(s: Vm.State, lines: seq<Line>, line: Line)
    requires |s.regs| == 5 && Covered(line) && line.m.JMP? && |line.args| == 1
    ensures Shows(Transferred(s, lines, line), Vm.Jump(s, RawOf(lines, line.args[0])))
  {
    hide HasValue, IsPlace, PlaceOf, ValueOf, Held, With, RawOf, Vm.ReadArg, Vm.Deref, AddressOf;
    TargetMeans(s, lines, line.args[0]);
  }

  lemma JumpIfMeans(s: Vm.State, lines: seq<Line>, line: Line)
    requires |s.regs| == 5 && Covered(line) && line.m in {JE, JNE, JG, JNG} && |line.args| == 1
    ensures Shows(Transferred(s, lines, line), Vm.JumpIf(s, Taken(s, line.m), RawOf(lines, line.args[0])))
  {
    hide HasValue, IsPlace, PlaceOf, ValueOf, Held, With, RawOf, Vm.ReadArg, Vm.Deref, AddressOf;
    TargetMeans(s, lines, line.args[0]);
  }

  /** How an encoded operand is seen as a target. */
  lemma TargetMeans(s: Vm.State, lines: seq<Line>, op: Operand)
    requires |s.regs| == 5
    ensures var raw := RawOf(lines, op);
      && (raw.typ == ADDRESS <==> op.Ref?) && (raw.typ == NUMBER <==> op.Num? && op.n <= 255)
      && (op.Ref? ==> raw.value == AddressOf(lines, op.l))
      && (raw.typ == NUMBER ==> raw.value == ValueOf(s, lines, op))
      && (op.Num? ==> (HasValue(s, lines, op) <==> raw.typ == NUMBER))
      && (op.Num? || !HasValue(s, lines, op) ==> Vm.Deref(s, raw) == Vm.Err(Trouble(op)))
      && (!op.Num? && HasValue(s, lines, op) ==> Vm.Deref(s, raw) == Vm.Val(ValueOf(s, lines, op)))
  {
    hide PlaceOf, Held, With, AddressOf, Vm.Resolve;
    OperandMeans(s, lines, op, 0);
    PlaceOfRegister(s, lines, op);
  }

  lemma PushMeans(s: Vm.State, lines: seq<Line>, line: Line)
    requires |s.regs| == 5 && Covered(line) && line.m.SPUSH? && |line.args| == 1
    ensures Shows(Meaning(s, lines, line), Vm.Push(s, RawOf(lines, line.args[0])))
  {
    hide HasValue, IsPlace, PlaceOf, ValueOf, Held, With, RawOf, Vm.Assign, Vm.ReadArg, Vm.PushBytes, Pushed;
    OperandMeans(s, lines, line.args[0], 0);
    WidthMeans(lines, line.args[0]);
    PushedIs(s, PushedBytes(line.args[0], ValueOf(s, lines, line.args[0])));
  }

  /** The width goes by the kind of the operand. */
  lemma WidthMeans(lines: seq<Line>, op: Operand)
    ensures Vm.StackWidth(RawOf(lines, op)) == if Doubled(op) then 2 else 1
  {
    hide AddressOf;
  }

  lemma {:induction false} PushedIs(s: Vm.State, bytes: seq<Byte>)
    requires 1 <= |bytes| <= 2
    ensures Shows(Pushed(s, bytes), Vm.PushBytes(s, bytes))
  {
    hide Vm.PushBytes;
    var sp := (s.proc.sp - |bytes|) % 65536;
    PushBytesIs(s, bytes, sp);
    if sp + |bytes| <= |s.ram| { Spliced(s.ram, sp, bytes); }
  }

  lemma PushBytesIs(s: Vm.State, bytes: seq<Byte>, sp: Word)
    requires sp == (s.proc.sp - |bytes|) % 65536
    ensures sp < s.proc.stackLimit ==> Vm.PushBytes(s, bytes).status == Vm.Fault(Vm.StackOverflow)
    ensures sp >= s.proc.stackLimit && sp + |bytes| > |s.ram| ==> Vm.PushBytes(s, bytes).status == Vm.Fault(Vm.Undefined)
    ensures sp >= s.proc.stackLimit && sp + |bytes| <= |s.ram| ==>
      Vm.PushBytes(s, bytes) == s.(ram := s.ram[..sp] + bytes + s.ram[sp + |bytes|..], proc := s.proc.(sp := sp))
  {
  }

  lemma {:induction false} Spliced(ram: seq<Byte>, sp: nat, bytes: seq<Byte>)
    requires 1 <= |bytes| <= 2 && sp + |bytes| <= |ram|
    ensures |bytes| == 1 ==> ram[..sp] + bytes + ram[sp + |bytes|..] == ram[sp := bytes[0]]
    ensures |bytes| == 2 ==> ram[..sp] + bytes + ram[sp + |bytes|..] == ram[sp := bytes[0]][sp + 1 := bytes[1]]
  {
    hide *;
    var spliced := ram[..sp] + bytes + ram[sp + |bytes|..];
    forall i | 0 <= i < |ram| ensures spliced[i] == if i < sp || i >= sp + |bytes| then ram[i] else bytes[i - sp] {
    }
  }

  lemma PopMeans(s: Vm.State, lines: seq<Line>, line: Line)
    requires |s.regs| == 5 && s.status.Running? && Covered(line) && line.m.SPOP? && |line.args| == 1
    ensures Shows(Meaning(s, lines, line), Vm.Pop(s, RawOf(lines, line.args[0])))
  {
    hide HasValue, IsPlace, PlaceOf, ValueOf, Held, RawOf, Vm.Assign, Vm.ReadArg, Vm.StackWidth;
    var op := line.args[0];
    WidthMeans(lines, op);
    var sp := s.proc.sp + if Doubled(op) then 2 else 1;
    if sp <= s.proc.firstSector + s.proc.memory && sp <= |s.ram| {
      OperandMeans(s, lines, op, s.ram[sp - 1]);
    }
  }

  lemma CallMeans(s: Vm.State, lines: seq<Line>, line: Line)
    requires |s.regs| == 5 && s.status.Running? && Covered(line) && line.m.CALL? && |line.args| == 1
    ensures Shows(Meaning(s, lines, line), Vm.Call(s, RawOf(lines, line.args[0])))
  {
    hide RawOf, Vm.PushBytes, Pushed, AddressOf;
    TargetMeans(s, lines, line.args[0]);
    PushedIs(s, [s.proc.pc / 256, s.proc.pc % 256]);
    PushGoesOn(s, [s.proc.pc / 256, s.proc.pc % 256]);
  }

  lemma PushGoesOn(s: Vm.State, bytes: seq<Byte>)
    requires 1 <= |bytes| <= 2 && s.status.Running?
    ensures Pushed(s, bytes).Gives? ==> Pushed(s, bytes).state.status.Running?
  {
  }

  lemma ReturnMeans(s: Vm.State)
    ensures Shows(Returned(s), Vm.Return(s))
  {
    hide Join;
    if s.proc.sp + 2 <= |s.ram| { JoinIs(s.ram[s.proc.sp], s.ram[s.proc.sp + 1]); }
  }

  lemma AllocMeans(s: Vm.State, lines: seq<Line>, line: Line)
    requires |s.regs| == 5 && Covered(line) && line.m.HALLOC? && |line.args| == 2
    ensures Shows(Meaning(s, lines, line), Vm.Alloc(s, RawOf(lines, line.args[0]), RawOf(lines, line.args[1])))
  {
    hide HasValue, IsPlace, PlaceOf, ValueOf, Held, With, RawOf, Vm.Assign, Vm.Deref, Heap.Halloc;
    TargetMeans(s, lines, line.args[1]);
    if HasValue(s, lines, line.args[1]) {
      var r := Heap.Halloc(s.ram, s.proc.heapStart, s.proc.heapLimit, ValueOf(s, lines, line.args[1]));
      if r.Allocated? { OperandMeans(s.(ram := r.ram), lines, line.args[0], r.ptr % 256); }
    }
  }

  lemma ReleaseMeans(s: Vm.State, lines: seq<Line>, line: Line)
    requires |s.regs| == 5 && Covered(line) && line.m.HFREE? && |line.args| == 1
    ensures Shows(Meaning(s, lines, line), Vm.Release(s, RawOf(lines, line.args[0])))
  {
    hide PlaceOf, Held, With, RawOf, Vm.Deref, Heap.Hfree, AddressOf;
    TargetMeans(s, lines, line.args[0]);
    PlaceOfRegister(s, lines, line.args[0]);
  }

  lemma MeaningIs(s: Vm.State, lines: seq<Line>, line: Line)
    requires |s.regs| == 5 && Covered(line)
    ensures line.m in {ADD, SUB, MUL, DIV} ==> Meaning(s, lines, line) == Updated(s, lines, line)
  {
    hide HasValue, ValueOf, Updated, Transferred, Returned, Popped, Pushed, Called, Allocated, Released;
  }
}
