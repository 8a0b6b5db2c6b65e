/** The labelled-assembly machine: it runs assembly lines directly. It covers the instructions that
    reach memory only through `[A]`..`[D]`, hence only the 256 cells at the base of the process. */
module Machine {
  import opened Bytes
  import opened Brainfuck
  import opened Asm

  datatype Cpu = Cpu(
    cells: Ring, a: Byte, b: Byte, c: Byte, d: Byte,
    zero: bool, sign: bool,
    input: seq<int>, output: seq<Byte>)

  /** The part of the state that a Brainfuck program can observe. */
  function Core(s: Cpu): World { World(s.cells, s.a, s.input, s.output) }

  function Get(s: Cpu, r: Reg): Byte {
    match r
    case A => s.a
    case B => s.b
    case C => s.c
    case D => s.d
  }

  predicate Writable(op: Operand) { op.Direct? || op.At? }

  predicate Readable(op: Operand) { op.Num? || Writable(op) }

  function Value(s: Cpu, op: Operand): Byte
    requires Readable(op)
  {
    match op
    case Num(n) => Wrap(n)
    case Direct(r) => Get(s, r)
    case At(r) => s.cells[Get(s, r)]
  }

  function Put(s: Cpu, op: Operand, v: Byte): Cpu
    requires Writable(op)
  {
    match op
    case Direct(A) => s.(a := v)
    case Direct(B) => s.(b := v)
    case Direct(C) => s.(c := v)
    case Direct(D) => s.(d := v)
    case At(r) => s.(cells := s.cells[Get(s, r) := v])
  }

  function Compare(s: Cpu, x: Byte, y: Byte): Cpu { s.(zero := x == y, sign := x > y) }

  /** Instructions that only compute. */
  predicate Plain(line: Line) {
    line.Ins? &&
    match line.m
    case NOP => line.args == []
    case MOV | ADD | SUB | MUL => |line.args| == 2 && Writable(line.args[0]) && Readable(line.args[1])
    case CMP => |line.args| == 2 && Readable(line.args[0]) && Readable(line.args[1])
    case PRINT => |line.args| == 1 && Readable(line.args[0])
    case INPUT => |line.args| == 1 && Writable(line.args[0])
    case _ => false
  }

  function Exec(line: Line, s: Cpu): Cpu
    requires Plain(line)
  {
    match line.m
    case MOV => Put(s, line.args[0], Value(s, line.args[1]))
    case ADD => Put(s, line.args[0], Wrap(Value(s, line.args[0]) + Value(s, line.args[1])))
    case SUB => Put(s, line.args[0], Wrap(Value(s, line.args[0]) - Value(s, line.args[1])))
    case MUL => Put(s, line.args[0], Wrap(Value(s, line.args[0]) * Value(s, line.args[1])))
    case CMP => Compare(s, Value(s, line.args[0]), Value(s, line.args[1]))
    case PRINT => s.(output := s.output + [Value(s, line.args[0])])
    case INPUT => Put(s, line.args[0], NextInput(s.input)).(input := RestInput(s.input))
    case _ => s
  }

  /** Jumps to a label. */
  predicate Jump(line: Line) {
    line.Ins? && line.m in {JMP, JE, JNE, JG, JNG} && |line.args| == 1 && line.args[0].Ref?
  }

  predicate Taken(line: Line, s: Cpu)
    requires Jump(line)
  {
    match line.m
    case JE => s.zero
    case JNE => !s.zero
    case JG => s.sign
    case JNG => !s.sign
    case _ => true
  }

  const HALT_LINE := Ins(HALT, [])

  datatype Config = Config(pc: nat, cpu: Cpu, halted: bool)

  /** One line. A halted machine, one past the end and one at a line outside this
      instruction subset stay where they are. */
  function Step(lines: seq<Line>, k: Config): Config {
    if k.halted || k.pc >= |lines| then k
    else
      var line := lines[k.pc];
      if line.Mark? then k.(pc := k.pc + 1)
      else if line == HALT_LINE then k.(halted := true)
      else if Plain(line) then Config(k.pc + 1, Exec(line, k.cpu), false)
      else if Jump(line) && LabelAt(lines, line.args[0].l) >= 0 then
        k.(pc := if Taken(line, k.cpu) then LabelAt(lines, line.args[0].l) else k.pc + 1)
      else k
  }

  function Run(lines: seq<Line>, k: Config, n: nat): Config
    decreases n
  {
    if n == 0 then k else Run(lines, Step(lines, k), n - 1)
  }

  lemma {:induction false} RunAdd(lines: seq<Line>, k: Config, m: nat, n: nat)
    ensures Run(lines, k, m + n) == Run(lines, Run(lines, k, m), n)
    decreases m
  {
    if m > 0 { RunAdd(lines, Step(lines, k), m - 1, n); }
  }

  lemma {:induction false} RunHalted(lines: seq<Line>, k: Config, n: nat)
    requires k.halted
    ensures Run(lines, k, n) == k
    decreases n
  {
    if n > 0 { RunHalted(lines, k, n - 1); }
  }
}
