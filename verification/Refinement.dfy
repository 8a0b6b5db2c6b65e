/** The machine on assembled bytes refines the labelled-assembly machine: it goes through the same
    states, instruction by instruction, with the program counter at the byte offset of the line. */
module Refinement {
  import opened Bytes
  import opened Brainfuck
  import opened Asm
  import opened Machine
  import opened Isa
  import opened Assembler
  import Vm

  /** Programs of the labelled machine: a leading reservation that covers the 256 cells that
      registers can reach, then lines of the supported instructions with defined labels. */
  predicate Runnable(lines: seq<Line>) {
    && lines != [] && lines[0].Skip? && lines[0].n >= 254
    && forall i :: 1 <= i < |lines| ==> Supported(lines, lines[i])
  }

  predicate Supported(lines: seq<Line>, line: Line) {
    line.Mark? || line == HALT_LINE || Plain(line) || (Jump(line) && LabelAt(lines, line.args[0].l) >= 0)
  }

  lemma RunnableIsKnown(lines: seq<Line>)
    requires Runnable(lines)
    ensures Known(lines) && Resolved(lines, lines)
  {
    forall i | 0 <= i < |lines| && lines[i].Ins?
      ensures OpcodeOf(lines[i].m, |lines[i].args|).Some? && ResolvedArgs(lines, lines[i].args)
    {
      assert Supported(lines, lines[i]);
    }
  }

  // ----- the state on bytes behind a state of the labelled machine -----

  /** What loading leaves fixed: the code in memory from offset 256 on, and the process layout. */
  ghost predicate Loaded(lines: seq<Line>, base: Vm.State) {
    && Known(lines)
    && |base.regs| == 5 && |base.ram| < 0x1_0000
    && var f := base.proc.firstSector;
       var bytes := Assembled(lines);
       && 256 <= |bytes| && f + |bytes| < |base.ram| && base.proc.lastCode == f + |bytes|
       && base.ram[f + 256..f + |bytes|] == bytes[256..]
  }

  /** `base` with the cells, registers, flags and streams of `cpu`. */
  function Image(base: Vm.State, cpu: Cpu, pc: Word, status: Vm.Status): Vm.State
    requires |base.regs| == 5 && base.proc.firstSector + 256 <= |base.ram|
  {
    var f := base.proc.firstSector;
    Vm.State(base.ram[..f] + cpu.cells + base.ram[f + 256..],
             [cpu.a, cpu.b, cpu.c, cpu.d, base.regs[4]],
             cpu.zero, cpu.sign, base.proc.(pc := pc), cpu.input, cpu.output, status)
  }

  /** The byte state for a configuration. HALT leaves the counter behind its opcode. */
  function ImageOf(lines: seq<Line>, base: Vm.State, k: Config): Vm.State
    requires Known(lines) && k.pc <= |lines|
    requires |base.regs| == 5 && base.proc.firstSector + 256 <= |base.ram|
  {
    var pc := base.proc.firstSector + Landed(lines, k.pc);
    if k.halted then Image(base, k.cpu, Wrap16(pc + 1), Vm.Halted) else Image(base, k.cpu, Wrap16(pc), Vm.Running)
  }

  // ----- operands -----

  lemma ImageCell(base: Vm.State, cpu: Cpu, pc: Word, r: Reg)
    requires |base.regs| == 5 && base.proc.firstSector + 256 <= |base.ram|
    ensures var s := Image(base, cpu, pc, Vm.Running);
      && |s.ram| == |base.ram| && s.regs[RegCode(r) - 1] == Get(cpu, r)
      && s.ram[base.proc.firstSector + Get(cpu, r)] == cpu.cells[Get(cpu, r)]
  {
  }

  /** Reading an encoded operand reads what the labelled machine reads. */
  lemma ReadsSame(lines: seq<Line>, base: Vm.State, cpu: Cpu, pc: Word, op: Operand)
    requires |base.regs| == 5 && base.proc.firstSector + 256 <= |base.ram|
    requires Readable(op) && NarrowOperand(op)
    ensures var s := Image(base, cpu, pc, Vm.Running);
      && Vm.ReadArg(s, RawOf(lines, op)) == Vm.Val(Value(cpu, op))
      && (Writable(op) ==> Vm.Deref(s, RawOf(lines, op)) == Vm.Val(Value(cpu, op)))
  {
    match op
    case Num(n) =>
    case Direct(r) => ImageCell(base, cpu, pc, r);
    case At(r) => ImageCell(base, cpu, pc, r);
  }

  /** Writing through an encoded operand writes what the labelled machine writes. */
  lemma WritesSame(lines: seq<Line>, base: Vm.State, cpu: Cpu, pc: Word, op: Operand, v: Byte)
    requires |base.regs| == 5 && base.proc.firstSector + 256 <= |base.ram|
    requires Writable(op)
    ensures Vm.Assign(Image(base, cpu, pc, Vm.Running), RawOf(lines, op), v) == Image(base, Put(cpu, op, v), pc, Vm.Running)
  {
    var s := Image(base, cpu, pc, Vm.Running);
    match op
    case Direct(r) => assert s.regs[RegCode(r) - 1 := v] == Image(base, Put(cpu, op, v), pc, Vm.Running).regs;
    case At(r) =>
      ImageCell(base, cpu, pc, r);
      assert s.ram[base.proc.firstSector + Get(cpu, r) := v] == Image(base, Put(cpu, op, v), pc, Vm.Running).ram;
  }

  // ----- instructions -----

  lemma RawArgsOf(lines: seq<Line>, args: seq<Operand>)
    ensures |args| == 1 ==> RawArgs(lines, args) == [RawOf(lines, args[0])]
    ensures |args| == 2 ==> RawArgs(lines, args) == [RawOf(lines, args[0]), RawOf(lines, args[1])]
    ensures |args| == 0 ==> RawArgs(lines, args) == []
  {
    hide RawOf;
    if |args| == 2 { assert RawArgs(lines, args[1..]) == [RawOf(lines, args[1])]; }
  }

  function FetchedLine(lines: seq<Line>, line: Line): Fetched
    requires line.Ins? && OpcodeOf(line.m, |line.args|).Some?
  {
    Fetched(OpcodeOf(line.m, |line.args|).value, RawArgs(lines, line.args))
  }

  /** A computing instruction does on bytes what it does on the labelled machine. */
  lemma PlainSame(lines: seq<Line>, base: Vm.State, cpu: Cpu, pc: Word, line: Line)
    requires |base.regs| == 5 && base.proc.firstSector + 256 <= |base.ram|
    requires Plain(line) && NarrowLine(line)
    ensures OpcodeOf(line.m, |line.args|).Some?
    ensures var f := FetchedLine(lines, line);
      && |f.args| == Arity(f.opcode)
      && Vm.Dispatch(Image(base, cpu, pc, Vm.Running), f) == Image(base, Exec(line, cpu), pc, Vm.Running)
  {
    hide RawArgs, RawOf, Image, Vm.Combine, Vm.Compare, Vm.Print, Vm.Move, Vm.Input, OpcodeOf, Arity, Exec, Readable, Writable;
    RawArgsOf(lines, line.args);
    PlainOpcode(lines, line);
    match line.m
    case MOV => MoveSame(lines, base, cpu, pc, line);
    case ADD | SUB | MUL => ArithSame(lines, base, cpu, pc, line);
    case CMP => CompareSame(lines, base, cpu, pc, line);
    case PRINT => PrintSame(lines, base, cpu, pc, line);
    case INPUT => InputSame(lines, base, cpu, pc, line);
    case NOP => ExecNop(cpu);
  }

  /** The opcodes of the computing instructions. */
  lemma PlainOpcode(lines: seq<Line>, line: Line)
    requires Plain(line)
    ensures OpcodeOf(line.m, |line.args|).Some?
    ensures OpcodeOf(line.m, |line.args|).value
         == match line.m
            case NOP => 0x00
            case MOV => 0x12
            case ADD => 0x32
            case SUB => 0x52
            case MUL => 0x72
            case CMP => 0xB2
            case PRINT => 0x01
            case _ => 0x21
    ensures Arity(OpcodeOf(line.m, |line.args|).value) == |line.args|
    ensures |RawArgs(lines, line.args)| == |line.args|
  {
    hide RawArgs;
    RawArgsOf(lines, line.args);
  }

  lemma ExecNop(cpu: Cpu)
    ensures Plain(Ins(NOP, [])) && Exec(Ins(NOP, []), cpu) == cpu
  {
  }

  lemma MoveSame(lines: seq<Line>, base: Vm.State, cpu: Cpu, pc: Word, line: Line)
    requires |base.regs| == 5 && base.proc.firstSector + 256 <= |base.ram|
    requires Plain(line) && NarrowLine(line) && line.m == MOV
    ensures Vm.Move(Image(base, cpu, pc, Vm.Running), RawOf(lines, line.args[0]), RawOf(lines, line.args[1]))
         == Image(base, Exec(line, cpu), pc, Vm.Running)
  {
    hide RawOf, Image, Vm.Assign, Vm.ReadArg, Put, Value;
    ReadsSame(lines, base, cpu, pc, line.args[1]);
    WritesSame(lines, base, cpu, pc, line.args[0], Value(cpu, line.args[1]));
  }

  lemma CompareSame(lines: seq<Line>, base: Vm.State, cpu: Cpu, pc: Word, line: Line)
    requires |base.regs| == 5 && base.proc.firstSector + 256 <= |base.ram|
    requires Plain(line) && NarrowLine(line) && line.m == CMP
    ensures Vm.Compare(Image(base, cpu, pc, Vm.Running), RawOf(lines, line.args[0]), RawOf(lines, line.args[1]))
         == Image(base, Exec(line, cpu), pc, Vm.Running)
  {
    hide RawOf, Vm.ReadArg, Value;
    ReadsSame(lines, base, cpu, pc, line.args[0]);
    ReadsSame(lines, base, cpu, pc, line.args[1]);
  }

  lemma PrintSame(lines: seq<Line>, base: Vm.State, cpu: Cpu, pc: Word, line: Line)
    requires |base.regs| == 5 && base.proc.firstSector + 256 <= |base.ram|
    requires Plain(line) && NarrowLine(line) && line.m == PRINT
    ensures Vm.Print(Image(base, cpu, pc, Vm.Running), RawOf(lines, line.args[0]))
         == Image(base, Exec(line, cpu), pc, Vm.Running)
  {
    hide RawOf, Vm.ReadArg, Value;
    ReadsSame(lines, base, cpu, pc, line.args[0]);
  }

  lemma ArithSame(lines: seq<Line>, base: Vm.State, cpu: Cpu, pc: Word, line: Line)
    requires |base.regs| == 5 && base.proc.firstSector + 256 <= |base.ram|
    requires Plain(line) && NarrowLine(line) && line.m in {ADD, SUB, MUL}
    ensures var op := if line.m == ADD then Vm.Add else if line.m == SUB then Vm.Sub else Vm.Mul;
      Vm.Combine(Image(base, cpu, pc, Vm.Running), op, RawOf(lines, line.args[0]), RawOf(lines, line.args[1]))
        == Image(base, Exec(line, cpu), pc, Vm.Running)
  {
    hide RawOf, Image, Vm.Assign, Vm.ReadArg, Vm.Deref, Put, Value;
    ReadsSame(lines, base, cpu, pc, line.args[0]);
    ReadsSame(lines, base, cpu, pc, line.args[1]);
    var op := if line.m == ADD then Vm.Add else if line.m == SUB then Vm.Sub else Vm.Mul;
    WritesSame(lines, base, cpu, pc, line.args[0], Vm.Result(op, Value(cpu, line.args[0]), Value(cpu, line.args[1])));
  }

  lemma InputSame(lines: seq<Line>, base: Vm.State, cpu: Cpu, pc: Word, line: Line)
    requires |base.regs| == 5 && base.proc.firstSector + 256 <= |base.ram|
    requires Plain(line) && line.m == INPUT
    ensures Vm.Input(Image(base, cpu, pc, Vm.Running), RawOf(lines, line.args[0]))
         == Image(base, Exec(line, cpu), pc, Vm.Running)
  {
    hide RawOf, Vm.Assign;
    var op := line.args[0];
    var cpu1 := cpu.(input := RestInput(cpu.input));
    assert Image(base, cpu, pc, Vm.Running).(input := RestInput(cpu.input)) == Image(base, cpu1, pc, Vm.Running);
    WritesSame(lines, base, cpu1, pc, op, NextInput(cpu.input));
    assert Put(cpu1, op, NextInput(cpu.input)) == Put(cpu, op, NextInput(cpu.input)).(input := RestInput(cpu.input));
  }

  // ----- where instructions lie -----

  lemma LandedNext(lines: seq<Line>, i: nat)
    requires i < |lines| && Known(lines)
    ensures Landed(lines, i + 1) == Landed(lines, i) + |Encode(lines, lines[i])|
  {
    hide Encode;
    assert lines[..i + 1] == lines[..i] + [lines[i]];
    EncodeSplit(lines, lines[..i], [lines[i]]);
    EncodeOne(lines, lines[i]);
  }

  lemma EncodeOne(lines: seq<Line>, line: Line)
    requires Known([line])
    ensures line.Ins? ==> OpcodeOf(line.m, |line.args|).Some?
    ensures EncodeAll(lines, [line]) == Encode(lines, line)
  {
    hide Encode;
    assert [line][0] == line && [line][1..] == [];
    assert Encode(lines, line) + [] == Encode(lines, line);
  }

  /** The bytes of line `i` in the assembled program. */
  lemma {:induction false} LineHolds(lines: seq<Line>, i: nat)
    requires i < |lines| && Known(lines)
    ensures lines[i].Ins? ==> OpcodeOf(lines[i].m, |lines[i].args|).Some?
    ensures Holds(Assembled(lines), Landed(lines, i), Encode(lines, lines[i]))
  {
    hide Encode, EncodeAll, Header, OpcodeOf;
    HeaderWidth(lines);
    assert lines == lines[..i] + ([lines[i]] + lines[i + 1..]);
    EncodeSplit(lines, lines[..i], [lines[i]] + lines[i + 1..]);
    EncodeSplit(lines, [lines[i]], lines[i + 1..]);
    EncodeOne(lines, lines[i]);
    assert Holds(Assembled(lines), 0, Assembled(lines));
    Associate(Header(lines), EncodeAll(lines, lines[..i]), Encode(lines, lines[i]) + EncodeAll(lines, lines[i + 1..]));
    HoldsParts(Assembled(lines), 0, Header(lines) + EncodeAll(lines, lines[..i]),
               Encode(lines, lines[i]) + EncodeAll(lines, lines[i + 1..]));
    HoldsParts(Assembled(lines), Landed(lines, i), Encode(lines, lines[i]), EncodeAll(lines, lines[i + 1..]));
  }

  lemma {:induction false} LandedGrows(lines: seq<Line>, i: nat, j: nat)
    requires i <= j <= |lines| && Known(lines)
    ensures Landed(lines, i) <= Landed(lines, j)
    decreases j
  {
    if i < j {
      LandedGrows(lines, i, j - 1);
      LandedNext(lines, j - 1);
    }
  }

  /** Behind the reservation, code lies at offset 256 or later and inside the program. */
  lemma LandedRange(lines: seq<Line>, i: nat)
    requires Runnable(lines) && Known(lines) && 1 <= i <= |lines|
    ensures 256 <= Landed(lines, i) <= |Assembled(lines)|
    ensures Landed(lines, |lines|) == |Assembled(lines)|
  {
    hide Encode, Header;
    LandedNext(lines, 0);
    EncodeShape(lines, lines[0]);
    LandedGrows(lines, 1, i);
    LandedInside(lines, i);
    HeaderWidth(lines);
    assert lines[..|lines|] == lines;
  }

  /** In memory, too, whatever the cells hold. */
  lemma LineInMemory(lines: seq<Line>, base: Vm.State, cpu: Cpu, pc: Word, i: nat)
    requires Runnable(lines) && Loaded(lines, base) && 1 <= i < |lines|
    ensures lines[i].Ins? ==> OpcodeOf(lines[i].m, |lines[i].args|).Some?
    ensures Holds(Image(base, cpu, pc, Vm.Running).ram, base.proc.firstSector + Landed(lines, i), Encode(lines, lines[i]))
  {
    hide Encode, Assembled, Landed, OpcodeOf, Runnable;
    LineHolds(lines, i);
    LandedRange(lines, i);
    var f := base.proc.firstSector;
    var part := Encode(lines, lines[i]);
    var bytes := Assembled(lines);
    var at := Landed(lines, i);
    var ram := Image(base, cpu, pc, Vm.Running).ram;
    forall j | 0 <= j < |part| ensures ram[f + at + j] == part[j] {
      HoldsByte(bytes, at, part, j);
      assert bytes[256..][at + j - 256] == bytes[at + j];
      assert base.ram[f + 256..f + |bytes|][at + j - 256] == base.ram[f + at + j];
    }
    assert ram[f + at..f + at + |part|] == part;
  }

  // ----- one step -----

  /** A label takes no byte. */
  lemma MarkStep(lines: seq<Line>, base: Vm.State, k: Config)
    requires Loaded(lines, base) && k.pc < |lines| && lines[k.pc].Mark? && !k.halted
    requires base.proc.firstSector + 256 <= |base.ram|
    ensures Machine.Step(lines, k) == k.(pc := k.pc + 1)
    ensures ImageOf(lines, base, k.(pc := k.pc + 1)) == ImageOf(lines, base, k)
  {
    LandedNext(lines, k.pc);
  }

  /** Every other line is one instruction, and one round of the loop; numerals above 255 from line
      `limit` on do not matter as long as control stays before it or just arrives there. */
  lemma InstructionStep(lines: seq<Line>, base: Vm.State, k: Config, limit: nat)
    requires Runnable(lines) && Loaded(lines, base) && limit <= |lines| && Narrow(lines[..limit])
    requires 1 <= k.pc < limit && !lines[k.pc].Mark? && !k.halted && Machine.Step(lines, k).pc <= limit
    ensures base.proc.firstSector + 256 <= |base.ram|
    ensures 1 <= Machine.Step(lines, k).pc <= |lines|
    ensures Vm.Step(ImageOf(lines, base, k)) == ImageOf(lines, base, Machine.Step(lines, k))
  {
    hide Assembled, Landed, Exec, Vm.Dispatch, Plain, Encode, RawArgs, OpcodeOf, Arity, Machine.Step, Vm.Step, Jump;
    var line := lines[k.pc];
    LandedRange(lines, k.pc + 1);
    assert Supported(lines, line) && NarrowLine(lines[..limit][k.pc]);
    SupportedOpcode(lines, line);
    FetchLine(lines, base, k);
    LineStep(lines, k);
    var next: Word := base.proc.firstSector + Landed(lines, k.pc + 1);
    if line == HALT_LINE {
      HaltSame(lines, base, k, next);
    } else if Plain(line) {
      PlainSame(lines, base, k.cpu, next, line);
    } else {
      JumpSame(lines, base, k, next, limit);
    }
  }

  /** One step of the labelled machine at an instruction. */
  lemma LineStep(lines: seq<Line>, k: Config)
    requires k.pc < |lines| && !k.halted && !lines[k.pc].Mark?
    ensures lines[k.pc] == HALT_LINE ==> Machine.Step(lines, k) == k.(halted := true)
    ensures Plain(lines[k.pc]) ==> Machine.Step(lines, k) == Config(k.pc + 1, Exec(lines[k.pc], k.cpu), false)
    ensures Jump(lines[k.pc]) && LabelAt(lines, lines[k.pc].args[0].l) >= 0 ==>
      Machine.Step(lines, k)
        == k.(pc := if Taken(lines[k.pc], k.cpu) then LabelAt(lines, lines[k.pc].args[0].l) else k.pc + 1)
  {
    hide Exec, LabelAt;
  }

  /** The byte machine fetches the instruction of the current line. */
  lemma FetchLine(lines: seq<Line>, base: Vm.State, k: Config)
    requires Runnable(lines) && Loaded(lines, base)
    requires 1 <= k.pc < |lines| && lines[k.pc].Ins? && !k.halted
    requires OpcodeOf(lines[k.pc].m, |lines[k.pc].args|).Some?
    ensures base.proc.firstSector + 256 <= |base.ram|
    ensures var next := base.proc.firstSector + Landed(lines, k.pc + 1);
      var f := FetchedLine(lines, lines[k.pc]);
      && next < 0x1_0000 && |f.args| == Arity(f.opcode)
      && Vm.Step(ImageOf(lines, base, k)) == Vm.Dispatch(Image(base, k.cpu, next, Vm.Running), f)
  {
    hide Assembled, Landed, Vm.Dispatch, Encode, RawArgs, OpcodeOf, Arity, Runnable, Vm.Step, Fetch;
    LandedRange(lines, k.pc);
    LandedRange(lines, k.pc + 1);
    LandedNext(lines, k.pc);
    var line := lines[k.pc];
    var at := base.proc.firstSector + Landed(lines, k.pc);
    var next: Word := base.proc.firstSector + Landed(lines, k.pc + 1);
    var s := ImageOf(lines, base, k);
    LineInMemory(lines, base, k.cpu, at, k.pc);
    FetchEncoded(s.ram, at, lines, line);
    EncodeShape(lines, line);
    StepFetched(s, FetchedLine(lines, line), next);
    assert s.(proc := s.proc.(pc := next)) == Image(base, k.cpu, next, Vm.Running);
  }

  lemma SupportedOpcode(lines: seq<Line>, line: Line)
    requires Supported(lines, line) && !line.Mark?
    ensures line.Ins? && OpcodeOf(line.m, |line.args|).Some?
  {
  }

  lemma StepFetched(s: Vm.State, f: Fetched, next: Word)
    requires Vm.Live(s) && Fetch(s.ram, s.proc.pc) == Some((f, next as nat))
    ensures |f.args| == Arity(f.opcode) && Vm.Step(s) == Vm.Dispatch(s.(proc := s.proc.(pc := next)), f)
  {
    hide Vm.Dispatch, Arity, Fetch;
    Vm.FetchCount(s.ram, s.proc.pc);
  }

  lemma HaltSame(lines: seq<Line>, base: Vm.State, k: Config, next: Word)
    requires Known(lines) && k.pc < |lines| && lines[k.pc] == HALT_LINE && !k.halted
    requires |base.regs| == 5 && base.proc.firstSector + 256 <= |base.ram|
    requires next == base.proc.firstSector + Landed(lines, k.pc + 1)
    ensures OpcodeOf(HALT, 0).Some?
    ensures var f := FetchedLine(lines, HALT_LINE);
      && |f.args| == Arity(f.opcode)
      && Vm.Dispatch(Image(base, k.cpu, next, Vm.Running), f) == ImageOf(lines, base, k.(halted := true))
  {
    hide Landed;
    LandedNext(lines, k.pc);
    assert EncodeArgs(lines, []) == [];
  }

  /** Jumps arrive where their label's code lies, because no numeral above 255 comes before it. */
  lemma JumpSame(lines: seq<Line>, base: Vm.State, k: Config, next: Word, limit: nat)
    requires Runnable(lines) && Loaded(lines, base) && limit <= |lines| && Narrow(lines[..limit])
    requires k.pc < |lines| && Machine.Step(lines, k).pc <= limit
    requires 1 <= k.pc < |lines| && !k.halted && base.proc.firstSector + 256 <= |base.ram|
    requires next == base.proc.firstSector + Landed(lines, k.pc + 1)
    requires Jump(lines[k.pc]) && LabelAt(lines, lines[k.pc].args[0].l) >= 0
    ensures OpcodeOf(lines[k.pc].m, |lines[k.pc].args|).Some?
    ensures Machine.Step(lines, k).pc <= |lines|
    ensures var fetched := FetchedLine(lines, lines[k.pc]);
      && |fetched.args| == Arity(fetched.opcode)
      && Vm.Dispatch(Image(base, k.cpu, next, Vm.Running), fetched) == ImageOf(lines, base, Machine.Step(lines, k))
  {
    var line := lines[k.pc];
    var l := line.args[0].l;
    var s := Image(base, k.cpu, next, Vm.Running);
    JumpOpcode(lines, line);
    hide Landed, Assembled, Narrow, Loaded, RawArgs, LabelAt, Runnable, Exec, Plain, OpcodeOf, Arity, AddressOf,
      Machine.Step, Vm.Dispatch, Image, FetchedLine, Jump, Vm.Jumped, ImageOf;
    LineStep(lines, k);
    ImageFlags(base, k.cpu, next);
    JumpDispatch(s, line, k.cpu, AddressOf(lines, l));
    if Taken(line, k.cpu) {
      JumpedImage(lines, base, k, l, next, limit);
    } else {
      NextImage(lines, base, k, next);
    }
  }

  lemma ImageOfRunning(lines: seq<Line>, base: Vm.State, k: Config)
    requires Known(lines) && k.pc <= |lines| && !k.halted
    requires |base.regs| == 5 && base.proc.firstSector + 256 <= |base.ram|
    ensures ImageOf(lines, base, k) == Image(base, k.cpu, Wrap16(base.proc.firstSector + Landed(lines, k.pc)), Vm.Running)
  {
  }

  /** Control at the next line. */
  lemma NextImage(lines: seq<Line>, base: Vm.State, k: Config, next: Word)
    requires Known(lines) && k.pc < |lines| && !k.halted
    requires |base.regs| == 5 && base.proc.firstSector + 256 <= |base.ram|
    requires next == base.proc.firstSector + Landed(lines, k.pc + 1)
    ensures Image(base, k.cpu, next, Vm.Running) == ImageOf(lines, base, k.(pc := k.pc + 1))
  {
    hide Landed, Image;
  }

  /** Control at a label. */
  lemma JumpedImage(lines: seq<Line>, base: Vm.State, k: Config, l: Label, pc: Word, limit: nat)
    requires Runnable(lines) && Loaded(lines, base) && limit <= |lines| && Narrow(lines[..limit])
    requires 0 <= LabelAt(lines, l) <= limit && !k.halted && base.proc.firstSector + 256 <= |base.ram|
    ensures Vm.Jumped(Image(base, k.cpu, pc, Vm.Running), AddressOf(lines, l))
         == ImageOf(lines, base, k.(pc := LabelAt(lines, l)))
  {
    hide Landed, LabelAt, Narrow, Image, Assembled, AddressOf, Vm.Jumped;
    JumpAddress(lines, base, l, limit);
    LoadedFits(lines, base);
    ImageOfRunning(lines, base, k.(pc := LabelAt(lines, l)));
    hide *;
    ImageJump(base, k.cpu, pc, AddressOf(lines, l));
  }

  lemma ImageFlags(base: Vm.State, cpu: Cpu, pc: Word)
    requires |base.regs| == 5 && base.proc.firstSector + 256 <= |base.ram|
    ensures Image(base, cpu, pc, Vm.Running).zero == cpu.zero && Image(base, cpu, pc, Vm.Running).sign == cpu.sign
  {
  }

  function JumpCode(m: Mnemonic): Byte {
    match m
    case JMP => 0x31
    case JE => 0x41
    case JNE => 0x51
    case JG => 0x61
    case _ => 0x71
  }

  lemma JumpDispatch(s: Vm.State, line: Line, cpu: Cpu, offset: Word)
    requires Jump(line) && s.zero == cpu.zero && s.sign == cpu.sign
    ensures Arity(JumpCode(line.m)) == 1
    ensures Vm.Dispatch(s, Fetched(JumpCode(line.m), [RawArg(ADDRESS, offset)]))
         == if Taken(line, cpu) then Vm.Jumped(s, offset) else s
  {
  }

  lemma JumpOpcode(lines: seq<Line>, line: Line)
    requires Jump(line)
    ensures OpcodeOf(line.m, |line.args|).Some?
    ensures FetchedLine(lines, line) == Fetched(JumpCode(line.m), [RawArg(ADDRESS, AddressOf(lines, line.args[0].l))])
    ensures |FetchedLine(lines, line).args| == Arity(FetchedLine(lines, line).opcode)
  {
    hide RawArgs;
    RawArgsOf(lines, line.args);
  }

  lemma ImageJump(base: Vm.State, cpu: Cpu, pc: Word, offset: Word)
    requires |base.regs| == 5 && base.proc.firstSector + 256 <= |base.ram|
    ensures Vm.Jumped(Image(base, cpu, pc, Vm.Running), offset)
         == Image(base, cpu, Wrap16(base.proc.firstSector + offset), Vm.Running)
  {
  }

  lemma JumpAddress(lines: seq<Line>, base: Vm.State, l: Label, limit: nat)
    requires Runnable(lines) && Loaded(lines, base) && limit <= |lines| && Narrow(lines[..limit])
    requires 0 <= LabelAt(lines, l) <= limit
    ensures AddressOf(lines, l) == Landed(lines, LabelAt(lines, l))
    ensures base.proc.firstSector + Landed(lines, LabelAt(lines, l)) < 0x1_0000
  {
    hide Assembled, Landed, AddressOf;
    var i := LabelAt(lines, l);
    assert lines[i] == Mark(l);
    LandedRange(lines, i);
    NarrowHasNoWide(lines[..i]);
    assert Narrow(lines[..i]) by { forall j | 0 <= j < i ensures NarrowLine(lines[..i][j]) { assert lines[..i][j] == lines[..limit][j]; } }
    LabelExact(lines, l);
  }

  // ----- single lines, wherever numerals above 255 are -----

  lemma PlainLineStep(lines: seq<Line>, base: Vm.State, k: Config)
    requires Runnable(lines) && Loaded(lines, base) && base.proc.firstSector + 256 <= |base.ram|
    requires 1 <= k.pc < |lines| && Plain(lines[k.pc]) && NarrowLine(lines[k.pc]) && !k.halted
    ensures Vm.Step(ImageOf(lines, base, k)) == ImageOf(lines, base, Config(k.pc + 1, Exec(lines[k.pc], k.cpu), false))
  {
    hide *;
    var line := lines[k.pc];
    PlainIsInstruction(line);
    LoadedFits(lines, base);
    FetchLine(lines, base, k);
    var next: Word := base.proc.firstSector + Landed(lines, k.pc + 1);
    PlainSame(lines, base, k.cpu, next, line);
    NextImage(lines, base, Config(k.pc, Exec(line, k.cpu), false), next);
  }

  lemma JumpNotTaken(lines: seq<Line>, base: Vm.State, k: Config)
    requires Runnable(lines) && Loaded(lines, base) && base.proc.firstSector + 256 <= |base.ram|
    requires 1 <= k.pc < |lines| && Jump(lines[k.pc]) && !Taken(lines[k.pc], k.cpu) && !k.halted
    ensures Vm.Step(ImageOf(lines, base, k)) == ImageOf(lines, base, k.(pc := k.pc + 1))
  {
    hide *;
    var line := lines[k.pc];
    JumpOpcode(lines, line);
    JumpIsInstruction(line);
    LoadedFits(lines, base);
    FetchLine(lines, base, k);
    var next: Word := base.proc.firstSector + Landed(lines, k.pc + 1);
    ImageFlags(base, k.cpu, next);
    JumpDispatch(Image(base, k.cpu, next, Vm.Running), line, k.cpu, AddressOf(lines, line.args[0].l));
    NextImage(lines, base, k, next);
  }

  lemma JumpIsInstruction(line: Line)
    requires Jump(line)
    ensures line.Ins? && |line.args| == 1 && line.args[0].Ref?
  {
  }

  lemma HaltStep(lines: seq<Line>, base: Vm.State, k: Config)
    requires Runnable(lines) && Loaded(lines, base) && base.proc.firstSector + 256 <= |base.ram|
    requires 1 <= k.pc < |lines| && lines[k.pc] == HALT_LINE && !k.halted
    ensures Vm.Step(ImageOf(lines, base, k)) == ImageOf(lines, base, k.(halted := true))
  {
    hide *;
    HaltIsSupported(lines);
    SupportedOpcode(lines, HALT_LINE);
    LoadedFits(lines, base);
    FetchLine(lines, base, k);
    HaltSame(lines, base, k, base.proc.firstSector + Landed(lines, k.pc + 1));
  }

  lemma HaltIsSupported(lines: seq<Line>)
    ensures Supported(lines, HALT_LINE) && HALT_LINE == Ins(HALT, [])
  {
  }

  // ----- runs -----

  /** A configuration inside the code. */
  predicate Inside(lines: seq<Line>, k: Config) { 1 <= k.pc <= |lines| }

  lemma StepStays(lines: seq<Line>, k: Config)
    requires Runnable(lines) && Inside(lines, k)
    ensures Inside(lines, Machine.Step(lines, k))
  {
    hide Exec, Plain;
    if !k.halted && k.pc < |lines| {
      assert Supported(lines, lines[k.pc]);
    }
  }

  lemma {:induction false} RunStays(lines: seq<Line>, k: Config, n: nat)
    requires Runnable(lines) && Inside(lines, k)
    ensures Inside(lines, Machine.Run(lines, k, n))
    decreases n
  {
    hide Machine.Step, Runnable;
    if n > 0 {
      StepStays(lines, k);
      RunStays(lines, Machine.Step(lines, k), n - 1);
    }
  }

  /** A labelled machine that has halted, or has run past its last line, is a stopped byte machine. */
  lemma StoppedSame(lines: seq<Line>, base: Vm.State, k: Config)
    requires Runnable(lines) && Loaded(lines, base) && Inside(lines, k)
    requires k.halted || k.pc == |lines|
    ensures base.proc.firstSector + 256 <= |base.ram|
    ensures !Vm.Live(ImageOf(lines, base, k)) && Machine.Step(lines, k) == k
  {
    hide Assembled, Landed, Encode, Exec;
    LandedRange(lines, k.pc);
  }

  /** Labels in front of the next instruction are passed without a round of the byte machine. */
  lemma {:induction false} PassMarks(lines: seq<Line>, base: Vm.State, k: Config) returns (m: nat)
    requires Runnable(lines) && Loaded(lines, base) && Inside(lines, k)
    ensures base.proc.firstSector + 256 <= |base.ram|
    ensures var k1 := Machine.Run(lines, k, m);
      && Inside(lines, k1) && ImageOf(lines, base, k1) == ImageOf(lines, base, k)
      && (k1.halted || k1.pc == |lines| || !lines[k1.pc].Mark?)
    decreases |lines| - k.pc
  {
    hide Machine.Step, Runnable, Loaded, ImageOf, Landed;
    LoadedFits(lines, base);
    if k.halted || k.pc == |lines| || !lines[k.pc].Mark? {
      m := 0;
    } else {
      MarkStep(lines, base, k);
      m := PassMarks(lines, base, k.(pc := k.pc + 1));
      m := m + 1;
    }
  }

  lemma LoadedFits(lines: seq<Line>, base: Vm.State)
    requires Loaded(lines, base)
    ensures |base.regs| == 5 && base.proc.firstSector + 256 <= |base.ram| && Known(lines)
  {
  }

  /** Every state that the byte machine reaches is the image of a configuration that the labelled
      machine reaches: the counter is on an instruction boundary inside the code, and memory differs
      from the loaded image in the 256 cells at most. */
  lemma {:induction false} BytesFollowLines(lines: seq<Line>, base: Vm.State, k: Config, n: nat) returns (m: nat)
    requires Runnable(lines) && Narrow(lines) && Loaded(lines, base) && Inside(lines, k)
    ensures base.proc.firstSector + 256 <= |base.ram| && Inside(lines, Machine.Run(lines, k, m))
    ensures Vm.Run(ImageOf(lines, base, k), n) == ImageOf(lines, base, Machine.Run(lines, k, m))
    decreases n
  {
    hide Machine.Step, Vm.Step, Runnable, Loaded, ImageOf, Narrow, Landed, Vm.Live;
    LoadedFits(lines, base);
    m := PassMarks(lines, base, k);
    var k1 := Machine.Run(lines, k, m);
    var s := ImageOf(lines, base, k);
    if k1.halted || k1.pc == |lines| {
      StoppedSame(lines, base, k1);
      Vm.RunStopped(s, n);
    } else if n > 0 {
      StepStays(lines, k1);
      assert lines[..|lines|] == lines;
      InstructionStep(lines, base, k1, |lines|);
      var k2 := Machine.Step(lines, k1);
      var more := BytesFollowLines(lines, base, k2, n - 1);
      Machine.RunAdd(lines, k1, 1, more);
      assert Machine.Run(lines, k1, 1) == Machine.Run(lines, k2, 0);
      Machine.RunAdd(lines, k, m, 1 + more);
      m := m + (1 + more);
    }
  }

  /** A run of `m` lines that stays before line `limit`, where it may arrive at the end. */
  ghost predicate StaysBefore(lines: seq<Line>, k: Config, m: nat, limit: nat)
    decreases m
  {
    k.pc <= limit && (m > 0 ==> (k.pc < limit || limit == |lines|) && StaysBefore(lines, Machine.Step(lines, k), m - 1, limit))
  }

  lemma {:induction false} AlwaysBeforeEnd(lines: seq<Line>, k: Config, m: nat)
    requires Runnable(lines) && Inside(lines, k)
    ensures StaysBefore(lines, k, m, |lines|)
    decreases m
  {
    hide Machine.Step, Runnable;
    if m > 0 {
      StepStays(lines, k);
      AlwaysBeforeEnd(lines, Machine.Step(lines, k), m - 1);
    }
  }

  /** And every configuration that the labelled machine reaches is reached on bytes: all of them in a
      program without numerals above 255, otherwise those on runs that stay before the first such line. */
  lemma {:induction false} LinesFollowBytes(lines: seq<Line>, base: Vm.State, k: Config, m: nat, limit: nat) returns (n: nat)
    requires Runnable(lines) && Loaded(lines, base) && Inside(lines, k)
    requires limit <= |lines| && Narrow(lines[..limit]) && StaysBefore(lines, k, m, limit)
    ensures base.proc.firstSector + 256 <= |base.ram| && Inside(lines, Machine.Run(lines, k, m))
    ensures Vm.Run(ImageOf(lines, base, k), n) == ImageOf(lines, base, Machine.Run(lines, k, m))
    decreases m
  {
    hide Machine.Step, Vm.Step, Runnable, Loaded, ImageOf, Narrow, Landed, Vm.Live;
    LoadedFits(lines, base);
    if m == 0 {
      n := 0;
    } else {
      var k1 := Machine.Step(lines, k);
      if k.halted || k.pc == |lines| {
        StoppedSame(lines, base, k);
        n := LinesFollowBytes(lines, base, k, m - 1, limit);
      } else if lines[k.pc].Mark? {
        MarkStep(lines, base, k);
        n := LinesFollowBytes(lines, base, k1, m - 1, limit);
      } else {
        AlsoAfter(lines, k, m, limit);
        InstructionStep(lines, base, k, limit);
        n := LinesFollowBytes(lines, base, k1, m - 1, limit);
        n := n + 1;
      }
    }
  }

  lemma AlsoAfter(lines: seq<Line>, k: Config, m: nat, limit: nat)
    requires m > 0 && StaysBefore(lines, k, m, limit)
    ensures Machine.Step(lines, k).pc <= limit
  {
    hide Machine.Step;
  }

  // ----- numerals above 255 -----

  /** A computing instruction with such a numeral throws: the machine cannot resolve NUMBER_16. Only CMP
      reads its first operand before a numeral in the second one, so that operand has to exist. */
  lemma {:induction false} WideThrows(lines: seq<Line>, s: Vm.State, line: Line)
    requires Plain(line) && !NarrowLine(line)
    requires line.m == CMP && NarrowOperand(line.args[0]) ==> Vm.ReadArg(s, RawOf(lines, line.args[0])).Val?
    ensures OpcodeOf(line.m, |line.args|).Some?
    ensures var f := FetchedLine(lines, line);
      |f.args| == Arity(f.opcode) && Vm.Dispatch(s, f) == s.(status := Vm.Fault(Vm.UnknownType))
  {
    hide RawArgs, OpcodeOf, Arity, Vm.Push, Vm.Pop, Vm.Alloc, Vm.Release, Vm.Call, Vm.Return, Vm.Jump, Vm.JumpIf;
    PlainOpcode(lines, line);
    RawArgsOf(lines, line.args);
    var k :| 0 <= k < |line.args| && !NarrowOperand(line.args[k]);
    WideIsUnread(lines, s, line.args[k]);
  }

  /** NUMBER_16 cannot be resolved. */
  lemma WideIsUnread(lines: seq<Line>, s: Vm.State, op: Operand)
    requires !NarrowOperand(op)
    ensures op.Num? && Vm.ReadArg(s, RawOf(lines, op)) == Vm.Err(Vm.UnknownType)
  {
  }

  /** A program whose run arrives at its first line with a numeral above 255 throws there. */
  lemma {:induction false} WideRunThrows(lines: seq<Line>, base: Vm.State, k: Config, m: nat, limit: nat) returns (n: nat)
    requires Runnable(lines) && Loaded(lines, base) && Inside(lines, k)
    requires limit < |lines| && Narrow(lines[..limit]) && StaysBefore(lines, k, m, limit)
    requires Machine.Run(lines, k, m).pc == limit && !Machine.Run(lines, k, m).halted
    requires !NarrowLine(lines[limit])
    ensures base.proc.firstSector + 256 <= |base.ram|
    ensures Vm.Run(ImageOf(lines, base, k), n).status == Vm.Fault(Vm.UnknownType)
  {
    hide *;
    LoadedFits(lines, base);
    InsideRange(lines, k);
    n := LinesFollowBytes(lines, base, k, m, limit);
    var k1 := Machine.Run(lines, k, m);
    InsideRange(lines, k1);
    WideStepThrows(lines, base, k1);
    Vm.RunLast(ImageOf(lines, base, k), n);
    n := n + 1;
  }

  lemma InsideRange(lines: seq<Line>, k: Config)
    requires Inside(lines, k)
    ensures 1 <= k.pc <= |lines|
  {
  }

  /** The lines from 1 up to `limit` have no HALT and no jump past `limit`. */
  predicate Closed(lines: seq<Line>, limit: nat)
    requires limit <= |lines|
  {
    forall i :: 1 <= i < limit ==>
      lines[i] != HALT_LINE && (Jump(lines[i]) ==> LabelAt(lines, lines[i].args[0].l) <= limit)
  }

  lemma ClosedStep(lines: seq<Line>, k: Config, limit: nat)
    requires Runnable(lines) && limit <= |lines| && Closed(lines, limit) && 1 <= k.pc < limit && !k.halted
    ensures 1 <= Machine.Step(lines, k).pc <= limit && !Machine.Step(lines, k).halted
  {
    hide Exec, Plain, LabelAt;
    StepStays(lines, k);
  }

  /** From closed lines the byte machine follows the labelled machine until it arrives at their end. */
  lemma {:induction false} BytesUpTo(lines: seq<Line>, base: Vm.State, k: Config, n: nat, limit: nat) returns (m: nat)
    requires Runnable(lines) && Loaded(lines, base) && limit <= |lines| && Narrow(lines[..limit]) && Closed(lines, limit)
    requires 1 <= k.pc <= limit && !k.halted
    ensures base.proc.firstSector + 256 <= |base.ram|
    ensures var k1 := Machine.Run(lines, k, m);
      && StaysBefore(lines, k, m, limit) && !k1.halted && 1 <= k1.pc <= limit
      && (k1.pc == limit || Vm.Run(ImageOf(lines, base, k), n) == ImageOf(lines, base, k1))
    decreases n, limit - k.pc
  {
    hide Machine.Step, Vm.Step, Runnable, Loaded, ImageOf, Narrow, Landed, Closed;
    LoadedFits(lines, base);
    if n == 0 || k.pc == limit {
      m := 0;
    } else if lines[k.pc].Mark? {
      MarkStep(lines, base, k);
      m := BytesUpTo(lines, base, k.(pc := k.pc + 1), n, limit);
      m := m + 1;
    } else {
      ClosedStep(lines, k, limit);
      InstructionStep(lines, base, k, limit);
      m := BytesUpTo(lines, base, Machine.Step(lines, k), n - 1, limit);
      m := m + 1;
    }
  }

  /** A program that has to pass a line with a numeral above 255 never halts. */
  lemma {:induction false} WideNeverHalts(lines: seq<Line>, base: Vm.State, k: Config, n: nat, limit: nat)
    requires Runnable(lines) && Loaded(lines, base) && Inside(lines, k) && k.pc <= limit && !k.halted
    requires limit < |lines| && Narrow(lines[..limit]) && Closed(lines, limit) && !NarrowLine(lines[limit])
    ensures base.proc.firstSector + 256 <= |base.ram|
    ensures Vm.Run(ImageOf(lines, base, k), n).status != Vm.Halted
  {
    var m := BytesUpTo(lines, base, k, n, limit);
    var k1 := Machine.Run(lines, k, m);
    var s := ImageOf(lines, base, k);
    if k1.pc == limit {
      var fault := WideRunThrows(lines, base, k, m, limit);
      hide *;
      FaultIsFinal(s, fault, n);
    } else {
      hide Machine.Run, Vm.Run, Landed;
      assert ImageOf(lines, base, k1).status == Vm.Running;
    }
  }

  lemma FaultIsFinal(s: Vm.State, m: nat, n: nat)
    requires Vm.Run(s, m).status.Fault?
    ensures Vm.Run(s, n).status != Vm.Halted
  {
    hide Vm.Step;
    if m <= n {
      Vm.RunFrozen(s, m, n);
    } else if Vm.Run(s, n).status == Vm.Halted {
      Vm.RunFrozen(s, n, m);
    }
  }

  lemma WideStepThrows(lines: seq<Line>, base: Vm.State, k: Config)
    requires Runnable(lines) && Loaded(lines, base) && 1 <= k.pc < |lines| && !k.halted
    requires !NarrowLine(lines[k.pc])
    ensures base.proc.firstSector + 256 <= |base.ram|
    ensures Vm.Step(ImageOf(lines, base, k)).status == Vm.Fault(Vm.UnknownType)
  {
    hide *;
    LoadedFits(lines, base);
    WideIsPlain(lines, k.pc);
    PlainIsInstruction(lines[k.pc]);
    FetchLine(lines, base, k);
    var next: Word := base.proc.firstSector + Landed(lines, k.pc + 1);
    var line := lines[k.pc];
    if line.m == CMP && NarrowOperand(line.args[0]) {
      ComparedOperands(line);
      ReadsSame(lines, base, k.cpu, next, line.args[0]);
    }
    WideThrows(lines, Image(base, k.cpu, next, Vm.Running), line);
  }

  /** Of the supported lines only those that compute have numerals. */
  lemma WideIsPlain(lines: seq<Line>, i: nat)
    requires Runnable(lines) && 1 <= i < |lines| && !NarrowLine(lines[i])
    ensures Plain(lines[i])
  {
    assert Supported(lines, lines[i]);
  }

  lemma ComparedOperands(line: Line)
    requires Plain(line) && line.m == CMP
    ensures |line.args| == 2 && Readable(line.args[0])
  {
  }

  lemma PlainIsInstruction(line: Line)
    requires Plain(line)
    ensures line.Ins? && OpcodeOf(line.m, |line.args|).Some?
  {
  }
}
