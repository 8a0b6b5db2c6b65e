/** Parsed assembly lines, as the Brainfuck compiler writes them and the assembler reads them. */
module Asm {
  datatype Reg = A | B | C | D

  datatype Label = Start | StartPar(id: nat) | ClosePar(id: nat) | Other(name: string)

  /** `5`, `A`, `[A]`, `[500]`, `lbl` and `[lbl]`. */
  datatype Operand =
    | Num(n: int)
    | Direct(r: Reg)
    | At(r: Reg)
    | Mem(addr: int)
    | Ref(l: Label)
    | RefAt(l: Label)

  datatype Mnemonic =
    | NOP | MOV | PRINT | PRINTFLUSH | ADD | SUB | MUL | DIV | INPUT | JMP | CMP
    | JE | JNE | JG | JNG | SPUSH | SPOP | HALLOC | HFREE | CALL | RET | FBSET | FBSYNC | HALT
    | Unknown(name: string)

  datatype Line = Skip(n: nat) | Mark(l: Label) | Ins(m: Mnemonic, args: seq<Operand>)

  /** The index of the definition of `l` that counts (a later one replaces an earlier one), or -1. */
  function LabelAt(lines: seq<Line>, l: Label): (i: int)
    ensures -1 <= i < |lines|
    ensures i >= 0 ==> lines[i] == Mark(l)
    ensures forall j :: i < j < |lines| ==> lines[j] != Mark(l)
  {
    if lines == [] then -1
    else if lines[|lines| - 1] == Mark(l) then |lines| - 1
    else LabelAt(lines[..|lines| - 1], l)
  }

  /** Operands whose numerals all fit a cell: a numeral above 255 is encoded as NUMBER_16. */
  predicate NarrowOperand(op: Operand) { op.Num? ==> op.n <= 255 }

  predicate NarrowLine(line: Line) {
    line.Ins? ==> forall k :: 0 <= k < |line.args| ==> NarrowOperand(line.args[k])
  }

  predicate Narrow(lines: seq<Line>) { forall i :: 0 <= i < |lines| ==> NarrowLine(lines[i]) }
}
