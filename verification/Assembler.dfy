/** `Assembler::asm_to_opcodes`: two passes over the lines, the first for label addresses,
    the second for the bytes. */
module Assembler {
  import opened Bytes
  import opened Asm
  import opened Isa

  // ----- pass one: sizes and addresses -----

  /** Bytes that pass one reserves for an operand: a numeral counts as one value byte, however large. */
  function ReservedArg(op: Operand): nat { if op.Mem? || op.Ref? || op.RefAt? then 3 else 2 }

  function ReservedArgs(args: seq<Operand>): nat {
    if args == [] then 0 else ReservedArg(args[0]) + ReservedArgs(args[1..])
  }

  function Reserved(line: Line): nat {
    match line
    case Skip(n) => n
    case Mark(_) => 0
    case Ins(_, args) => 1 + ReservedArgs(args)
  }

  function ReservedAll(lines: seq<Line>): nat {
    if lines == [] then 0 else Reserved(lines[0]) + ReservedAll(lines[1..])
  }

  /** The address that pass one computes for line `i`; the first two bytes hold the entry point. */
  function Planned(lines: seq<Line>, i: nat): nat
    requires i <= |lines|
  {
    2 + ReservedAll(lines[..i])
  }

  predicate Known(lines: seq<Line>) {
    forall i :: 0 <= i < |lines| && lines[i].Ins? ==> OpcodeOf(lines[i].m, |lines[i].args|).Some?
  }

  /** `start` exists after pass one even when no line defines it, because the header looks it up. */
  predicate Defined(lines: seq<Line>, l: Label) { LabelAt(lines, l) >= 0 || l == Start }

  function AddressOf(lines: seq<Line>, l: Label): Word {
    if LabelAt(lines, l) >= 0 then Wrap16(Planned(lines, LabelAt(lines, l))) else 0
  }

  // ----- pass two: bytes -----

  predicate Wide(op: Operand) { op.Num? && op.n > 255 }

  function TypeOf(op: Operand): Byte {
    match op
    case Num(n) => if n > 255 then NUMBER_16 else NUMBER
    case Direct(_) => REGISTER
    case At(_) => INDIRECT_REG
    case Mem(_) => INDIRECT_MEM
    case Ref(_) => ADDRESS
    case RefAt(_) => INDIRECT_LBL
  }

  /** The operand that the machine will see. Negative numerals are truncated to a cell. */
  function RawOf(lines: seq<Line>, op: Operand): RawArg {
    RawArg(TypeOf(op),
           match op
           case Num(n) => if n > 255 then Wrap16(n) else Wrap(n)
           case Direct(r) => RegCode(r)
           case At(r) => RegCode(r)
           case Mem(addr) => Wrap16(addr)
           case Ref(l) => AddressOf(lines, l)
           case RefAt(l) => AddressOf(lines, l))
  }

  function EncodeArg(lines: seq<Line>, op: Operand): seq<Byte> {
    var raw := RawOf(lines, op);
    if TwoBytes(raw.typ) then [raw.typ, High(raw.value), Low(raw.value)] else [raw.typ, Low(raw.value)]
  }

  function EncodeArgs(lines: seq<Line>, args: seq<Operand>): seq<Byte> {
    if args == [] then [] else EncodeArg(lines, args[0]) + EncodeArgs(lines, args[1..])
  }

  function Zeros(n: nat): (bytes: seq<Byte>)
    ensures |bytes| == n
    ensures forall i :: 0 <= i < n ==> bytes[i] == 0
  {
    if n == 0 then [] else [0] + Zeros(n - 1)
  }

  function Encode(lines: seq<Line>, line: Line): seq<Byte>
    requires line.Ins? ==> OpcodeOf(line.m, |line.args|).Some?
  {
    match line
    case Skip(n) => Zeros(n)
    case Mark(_) => []
    case Ins(m, args) => [OpcodeOf(m, |args|).value] + EncodeArgs(lines, args)
  }

  /** The bytes of `part`, a stretch of the program `lines`. */
  function EncodeAll(lines: seq<Line>, part: seq<Line>): seq<Byte>
    requires Known(part)
  {
    if part == [] then [] else Encode(lines, part[0]) + EncodeAll(lines, part[1..])
  }

  function Header(lines: seq<Line>): seq<Byte> {
    var start := AddressOf(lines, Start);
    if start == 0 then [0, 2] else [High(start), Low(start)]
  }

  predicate ResolvedArg(lines: seq<Line>, op: Operand) { op.Ref? || op.RefAt? ==> Defined(lines, op.l) }

  predicate ResolvedArgs(lines: seq<Line>, args: seq<Operand>) {
    forall k :: 0 <= k < |args| ==> ResolvedArg(lines, args[k])
  }

  /** Every label that `part` uses is defined in the program. */
  predicate Resolved(lines: seq<Line>, part: seq<Line>) {
    forall i :: 0 <= i < |part| && part[i].Ins? ==> ResolvedArgs(lines, part[i].args)
  }

  function Assembled(lines: seq<Line>): seq<Byte>
    requires Known(lines)
  {
    Header(lines) + EncodeAll(lines, lines)
  }

  // ----- where bytes land -----

  /** The bytes that pass two has written before line `i`. */
  function Landed(lines: seq<Line>, i: nat): nat
    requires i <= |lines| && Known(lines)
  {
    2 + |EncodeAll(lines, lines[..i])|
  }

  function WideArgs(args: seq<Operand>): nat {
    if args == [] then 0 else (if Wide(args[0]) then 1 else 0) + WideArgs(args[1..])
  }

  /** Numerals above 255 in instructions. */
  function WideCount(lines: seq<Line>): nat {
    if lines == [] then 0 else (if lines[0].Ins? then WideArgs(lines[0].args) else 0) + WideCount(lines[1..])
  }

  lemma {:induction false} ArgsDrift(lines: seq<Line>, args: seq<Operand>)
    ensures |EncodeArgs(lines, args)| == ReservedArgs(args) + WideArgs(args)
  {
    if args != [] { ArgsDrift(lines, args[1..]); }
  }

  lemma {:induction false} StretchDrift(lines: seq<Line>, part: seq<Line>)
    requires Known(part)
    ensures |EncodeAll(lines, part)| == ReservedAll(part) + WideCount(part)
  {
    if part != [] {
      if part[0].Ins? { ArgsDrift(lines, part[0].args); }
      StretchDrift(lines, part[1..]);
    }
  }

  /** The two passes drift apart by one byte for every numeral above 255 that comes before. */
  lemma {:induction false} LayoutDrift(lines: seq<Line>, i: nat)
    requires i <= |lines| && Known(lines)
    ensures Landed(lines, i) == Planned(lines, i) + WideCount(lines[..i])
  {
    StretchDrift(lines, lines[..i]);
  }

  /** A label below 2^16 gets the address where its code lands iff no numeral above 255 precedes it. */
  lemma {:induction false} LabelExact(lines: seq<Line>, l: Label)
    requires Known(lines) && LabelAt(lines, l) >= 0 && |Assembled(lines)| < 0x1_0000
    ensures AddressOf(lines, l) == Landed(lines, LabelAt(lines, l)) <==> WideCount(lines[..LabelAt(lines, l)]) == 0
  {
    hide EncodeAll, Header, ReservedAll, WideCount;
    var i := LabelAt(lines, l);
    LayoutDrift(lines, i);
    LandedInside(lines, i);
  }

  lemma LandedInside(lines: seq<Line>, i: nat)
    requires Known(lines) && i <= |lines|
    ensures Landed(lines, i) <= |Assembled(lines)|
  {
    hide EncodeAll, Header, Encode;
    HeaderWidth(lines);
    assert lines[..i] + lines[i..] == lines;
    EncodeSplit(lines, lines[..i], lines[i..]);
  }

  lemma KnownJoin(a: seq<Line>, b: seq<Line>)
    requires Known(a) && Known(b)
    ensures Known(a + b)
  {
  }

  lemma {:induction false} EncodeSplit(lines: seq<Line>, a: seq<Line>, b: seq<Line>)
    requires Known(a) && Known(b)
    ensures Known(a + b) && EncodeAll(lines, a + b) == EncodeAll(lines, a) + EncodeAll(lines, b)
  {
    hide Encode, OpcodeOf;
    KnownJoin(a, b);
    if a == [] {
      assert a + b == b;
    } else {
      assert (a + b)[1..] == a[1..] + b;
      EncodeSplit(lines, a[1..], b);
    }
  }

  /** No wide numeral at all: the passes agree on every line. */
  lemma {:induction false} NarrowHasNoWide(lines: seq<Line>)
    ensures WideCount(lines) == 0 <==> Narrow(lines)
  {
    if lines != [] {
      NarrowHasNoWide(lines[1..]);
      if lines[0].Ins? { NarrowArgsHaveNoWide(lines[0].args); }
      assert Narrow(lines) <==> NarrowLine(lines[0]) && Narrow(lines[1..]) by {
        if NarrowLine(lines[0]) && Narrow(lines[1..]) {
          forall i | 0 <= i < |lines| ensures NarrowLine(lines[i]) {
            assert i > 0 ==> lines[i] == lines[1..][i - 1];
          }
        }
      }
    }
  }

  lemma {:induction false} NarrowArgsHaveNoWide(args: seq<Operand>)
    ensures WideArgs(args) == 0 <==> forall k :: 0 <= k < |args| ==> NarrowOperand(args[k])
  {
    if args != [] {
      NarrowArgsHaveNoWide(args[1..]);
      assert forall k :: 0 < k < |args| ==> args[k] == args[1..][k - 1];
    }
  }

  // ----- decoding what was assembled -----

  predicate Holds(bytes: seq<Byte>, at: nat, part: seq<Byte>) {
    at + |part| <= |bytes| && bytes[at..at + |part|] == part
  }

  lemma HoldsParts(bytes: seq<Byte>, at: nat, a: seq<Byte>, b: seq<Byte>)
    requires Holds(bytes, at, a + b)
    ensures Holds(bytes, at, a) && Holds(bytes, at + |a|, b)
  {
    assert a == (a + b)[..|a|] == bytes[at..at + |a|];
    assert b == (a + b)[|a|..] == bytes[at + |a|..at + |a| + |b|];
  }

  lemma HoldsByte(bytes: seq<Byte>, at: nat, part: seq<Byte>, k: nat)
    requires Holds(bytes, at, part) && k < |part|
    ensures at + k < |bytes| && bytes[at + k] == part[k]
  {
    assert bytes[at + k] == bytes[at..at + |part|][k];
  }

  /** Fetching an encoded operand gives back its type and value. */
  lemma FetchEncodedArg(bytes: seq<Byte>, at: nat, lines: seq<Line>, op: Operand)
    requires Holds(bytes, at, EncodeArg(lines, op))
    ensures FetchArg(bytes, at) == Some((RawOf(lines, op), at + |EncodeArg(lines, op)|))
  {
    hide RawOf, Holds;
    var raw := RawOf(lines, op);
    RawFits(lines, op);
    HoldsByte(bytes, at, EncodeArg(lines, op), 0);
    HoldsByte(bytes, at, EncodeArg(lines, op), 1);
    if TwoBytes(raw.typ) {
      hide High, Low, Join;
      JoinSplit(raw.value);
      HoldsByte(bytes, at, EncodeArg(lines, op), 2);
    }
  }

  /** Operands with a one-byte encoding have one-byte values. */
  lemma RawFits(lines: seq<Line>, op: Operand)
    ensures TwoBytes(RawOf(lines, op).typ) || (OneByte(RawOf(lines, op).typ) && RawOf(lines, op).value < 256)
    ensures Wrap16(RawOf(lines, op).value) == RawOf(lines, op).value
  {
    hide AddressOf;
  }

  function RawArgs(lines: seq<Line>, args: seq<Operand>): seq<RawArg> {
    if args == [] then [] else [RawOf(lines, args[0])] + RawArgs(lines, args[1..])
  }

  lemma {:induction false} FetchEncodedArgs(bytes: seq<Byte>, at: nat, lines: seq<Line>, args: seq<Operand>)
    requires Holds(bytes, at, EncodeArgs(lines, args))
    ensures FetchArgs(bytes, at, |args|) == Some((RawArgs(lines, args), at + |EncodeArgs(lines, args)|))
    decreases |args|
  {
    hide RawOf, EncodeArg, FetchArg, Holds;
    if args != [] {
      HoldsParts(bytes, at, EncodeArg(lines, args[0]), EncodeArgs(lines, args[1..]));
      FetchEncodedArg(bytes, at, lines, args[0]);
      FetchEncodedArgs(bytes, at + |EncodeArg(lines, args[0])|, lines, args[1..]);
    }
  }

  /** Fetching an encoded instruction gives back its opcode and operands. */
  lemma FetchEncoded(bytes: seq<Byte>, at: nat, lines: seq<Line>, line: Line)
    requires line.Ins? && OpcodeOf(line.m, |line.args|).Some?
    requires Holds(bytes, at, Encode(lines, line))
    ensures Fetch(bytes, at) == Some((Fetched(OpcodeOf(line.m, |line.args|).value, RawArgs(lines, line.args)),
                                      at + |Encode(lines, line)|))
  {
    hide EncodeArgs, RawArgs, FetchArgs, OpcodeOf, Arity, Holds;
    var opcode := OpcodeOf(line.m, |line.args|).value;
    HoldsParts(bytes, at, [opcode], EncodeArgs(lines, line.args));
    HoldsByte(bytes, at, [opcode], 0);
    OpcodeArity(line.m, |line.args|);
    FetchEncodedArgs(bytes, at + 1, lines, line.args);
  }

  /** A linear sweep over the bytes from `at` to the end. */
  function Sweep(bytes: seq<Byte>, at: nat): Option<seq<Fetched>>
    decreases |bytes| - at
  {
    if at >= |bytes| then (if at == |bytes| then Some([]) else None)
    else
      match Fetch(bytes, at)
      case None => None
      case Some((instr, next)) =>
        FetchAdvances(bytes, at);
        match Sweep(bytes, next)
        case None => None
        case Some(rest) => Some([instr] + rest)
  }

  lemma {:induction false} ArgsAdvance(ram: seq<Byte>, pc: nat, n: nat)
    requires FetchArgs(ram, pc, n).Some?
    ensures FetchArgs(ram, pc, n).value.1 >= pc
    decreases n
  {
    if n > 0 { ArgsAdvance(ram, FetchArg(ram, pc).value.1, n - 1); }
  }

  lemma FetchAdvances(ram: seq<Byte>, pc: nat)
    requires Fetch(ram, pc).Some?
    ensures Fetch(ram, pc).value.1 > pc
  {
    ArgsAdvance(ram, pc + 1, Arity(ram[pc]));
  }

  /** `n` NOPs. */
  function Nops(n: nat): seq<Fetched> { if n == 0 then [] else [Fetched(0x00, [])] + Nops(n - 1) }

  /** The instructions that the program `lines` has in `part`, with a reserved area read as NOPs. */
  function Instructions(lines: seq<Line>, part: seq<Line>): seq<Fetched>
    requires Known(part)
  {
    if part == [] then []
    else
      (match part[0]
       case Skip(n) => Nops(n)
       case Mark(_) => []
       case Ins(m, args) => [Fetched(OpcodeOf(m, |args|).value, RawArgs(lines, args))])
      + Instructions(lines, part[1..])
  }

  lemma {:induction false} SweepZeros(bytes: seq<Byte>, at: nat, n: nat)
    requires Holds(bytes, at, Zeros(n)) && Sweep(bytes, at + n).Some?
    ensures Sweep(bytes, at) == Some(Nops(n) + Sweep(bytes, at + n).value)
    decreases n
  {
    hide Holds, Fetch;
    if n == 0 {
      assert Nops(0) + Sweep(bytes, at).value == Sweep(bytes, at).value;
    } else {
      HoldsParts(bytes, at, [0], Zeros(n - 1));
      HoldsByte(bytes, at, [0], 0);
      SweepZeros(bytes, at + 1, n - 1);
      FetchNop(bytes, at);
      NopsFirst(n, Sweep(bytes, at + n).value);
    }
  }

  lemma FetchNop(bytes: seq<Byte>, at: nat)
    requires at < |bytes| && bytes[at] == 0
    ensures Fetch(bytes, at) == Some((Fetched(0x00, []), at + 1))
  {
    assert FetchArgs(bytes, at + 1, 0) == Some(([], at + 1));
  }

  lemma NopsFirst(n: nat, rest: seq<Fetched>)
    requires n > 0
    ensures Nops(n) + rest == [Fetched(0x00, [])] + (Nops(n - 1) + rest)
  {
  }

  lemma {:induction false} SweepEncoded(bytes: seq<Byte>, at: nat, lines: seq<Line>, part: seq<Line>)
    requires Known(part) && Holds(bytes, at, EncodeAll(lines, part))
    requires at + |EncodeAll(lines, part)| == |bytes|
    ensures Sweep(bytes, at) == Some(Instructions(lines, part))
    decreases |part|
  {
    hide Encode, RawArgs, OpcodeOf, Holds, Fetch, Nops;
    if part != [] {
      var line := part[0];
      HoldsParts(bytes, at, Encode(lines, line), EncodeAll(lines, part[1..]));
      SweepEncoded(bytes, at + |Encode(lines, line)|, lines, part[1..]);
      EncodeShape(lines, line);
      match line
      case Skip(n) => SweepZeros(bytes, at, n);
      case Mark(_) => assert [] + Instructions(lines, part[1..]) == Instructions(lines, part[1..]);
      case Ins(m, args) =>
        FetchEncoded(bytes, at, lines, line);
        HoldsSome(bytes, at, Encode(lines, line));
    }
  }

  lemma EncodeShape(lines: seq<Line>, line: Line)
    requires line.Ins? ==> OpcodeOf(line.m, |line.args|).Some?
    ensures line.Skip? ==> Encode(lines, line) == Zeros(line.n)
    ensures line.Mark? ==> Encode(lines, line) == []
    ensures line.Ins? ==> |Encode(lines, line)| > 0
  {
  }

  lemma HoldsSome(bytes: seq<Byte>, at: nat, part: seq<Byte>)
    requires Holds(bytes, at, part) && |part| > 0
    ensures at < |bytes|
  {
  }

  /** Round trip: sweeping the assembled bytes behind the header recovers the program's opcodes and
      operands, of every operand type and width. */
  lemma {:induction false} AssembleRoundTrip(lines: seq<Line>)
    requires Known(lines)
    ensures Sweep(Assembled(lines), 2) == Some(Instructions(lines, lines))
  {
    hide EncodeAll, Header;
    HeaderWidth(lines);
    assert Assembled(lines)[2..] == EncodeAll(lines, lines);
    SweepEncoded(Assembled(lines), 2, lines, lines);
  }

  lemma HeaderWidth(lines: seq<Line>)
    ensures |Header(lines)| == 2
  {
  }

  // ----- the assembler -----

  datatype Result = Binary(codes: seq<Byte>) | InvalidInstruction | LabelNotFound(l: Label)

  method InstructionToOpcode(ghost lines: seq<Line>, line: Line, addresses: map<Label, Word>) returns (r: Result)
    requires line.Ins? && OpcodeOf(line.m, |line.args|).Some?
    requires forall l :: l in addresses <==> Defined(lines, l)
    requires forall l :: l in addresses ==> addresses[l] == AddressOf(lines, l)
    ensures !r.InvalidInstruction?
    ensures r.Binary? <==> ResolvedArgs(lines, line.args)
    ensures r.Binary? ==> r.codes == Encode(lines, line)
    ensures r.LabelNotFound? ==> !Defined(lines, r.l) && (Ref(r.l) in line.args || RefAt(r.l) in line.args)
  {
    hide AddressOf, OpcodeOf, Defined, EncodeArg, RawOf, TwoBytes, High, Low;
    var codes := [OpcodeOf(line.m, |line.args|).value];
    var i := 0;
    assert line.args[0..] == line.args;
    while i < |line.args|
      invariant 0 <= i <= |line.args|
      invariant forall k :: 0 <= k < i ==> ResolvedArg(lines, line.args[k])
      invariant codes + EncodeArgs(lines, line.args[i..]) == Encode(lines, line)
    {
      var op := line.args[i];
      assert line.args[i..][1..] == line.args[i + 1..];
      var value: int;
      match op {
        case Num(n) => value := n;
        case Direct(reg) => value := RegCode(reg);
        case At(reg) => value := RegCode(reg);
        case Mem(addr) => value := addr;
        case Ref(l) =>
          if l !in addresses { return LabelNotFound(l); }
          value := addresses[l];
        case RefAt(l) =>
          if l !in addresses { return LabelNotFound(l); }
          value := addresses[l];
      }
      EncodedBytes(lines, op, value);
      Associate(codes, EncodeArg(lines, op), EncodeArgs(lines, line.args[i + 1..]));
      if TwoBytes(TypeOf(op)) {
        codes := codes + [TypeOf(op), High(value), Low(value)];
      } else {
        codes := codes + [TypeOf(op), Low(value)];
      }
      i := i + 1;
    }
    return Binary(codes);
  }

  /** Truncating an operand value before or while splitting it gives the same bytes. */
  lemma EncodedBytes(lines: seq<Line>, op: Operand, value: int)
    requires value ==
      match op
      case Num(n) => n
      case Direct(r) => RegCode(r)
      case At(r) => RegCode(r)
      case Mem(addr) => addr
      case Ref(l) => AddressOf(lines, l)
      case RefAt(l) => AddressOf(lines, l)
    ensures EncodeArg(lines, op)
         == if TwoBytes(TypeOf(op)) then [TypeOf(op), High(value), Low(value)] else [TypeOf(op), Low(value)]
  {
    SplitWrapped(value);
  }

  lemma SplitWrapped(value: int)
    ensures High(Wrap16(value)) == High(value) && Low(Wrap16(value)) == Low(value) && Low(Wrap(value)) == Low(value)
  {
    var q := value / 65536;
    assert value == 65536 * q + Wrap16(value);
    assert value / 256 == 256 * q + Wrap16(value) / 256;
    WrapShift(Wrap16(value) / 256, q);
    WrapShift(Wrap16(value), 256 * q);
  }

  lemma {:induction false} ReservedSplit(lines: seq<Line>, i: nat)
    requires i < |lines|
    ensures ReservedAll(lines[..i + 1]) == ReservedAll(lines[..i]) + Reserved(lines[i])
  {
    assert lines[..i + 1][..i] == lines[..i];
    ReservedLast(lines[..i + 1]);
  }

  lemma {:induction false} ReservedLast(lines: seq<Line>)
    requires lines != []
    ensures ReservedAll(lines) == ReservedAll(lines[..|lines| - 1]) + Reserved(lines[|lines| - 1])
  {
    if |lines| == 1 {
      assert lines[1..] == [] && lines[..0] == [];
    } else {
      ReservedLast(lines[1..]);
      assert lines[1..][..|lines| - 2] == lines[..|lines| - 1][1..];
    }
  }

  /** Pass one. It stops at the first instruction that is not in the table. */
  method PassOne(lines: seq<Line>) returns (known: bool, addresses: map<Label, Word>)
    ensures known <==> Known(lines)
    ensures known ==> forall l :: l in addresses <==> LabelAt(lines, l) >= 0
    ensures known ==> forall l :: l in addresses ==> addresses[l] == AddressOf(lines, l)
  {
    hide OpcodeOf, ReservedAll;
    var currentDimension := 2;
    addresses := map[];
    var i := 0;
    assert ReservedAll(lines[..0]) == 0 by { assert lines[..0] == []; ReservedNone(); }
    while i < |lines|
      invariant 0 <= i <= |lines|
      invariant currentDimension == Planned(lines, i)
      invariant Known(lines[..i])
      invariant forall l :: l in addresses <==> LabelAt(lines[..i], l) >= 0
      invariant forall l :: l in addresses ==> addresses[l] == Wrap16(Planned(lines, LabelAt(lines[..i], l)))
    {
      ReservedSplit(lines, i);
      assert lines[..i + 1][..i] == lines[..i];
      match lines[i] {
        case Mark(l) => addresses := addresses[l := Wrap16(currentDimension)];
        case Skip(n) => currentDimension := currentDimension + n;
        case Ins(m, args) =>
          if OpcodeOf(m, |args|).None? {
            return false, addresses;
          }
          var size := 1;
          var k := 0;
          assert args[0..] == args;
          while k < |args|
            invariant 0 <= k <= |args|
            invariant size + ReservedArgs(args[k..]) == 1 + ReservedArgs(args)
          {
            assert args[k..][1..] == args[k + 1..];
            size := size + 1;
            size := size + if args[k].Mem? || args[k].Ref? || args[k].RefAt? then 2 else 1;
            k := k + 1;
          }
          currentDimension := currentDimension + size;
      }
      i := i + 1;
    }
    assert lines[..|lines|] == lines;
    known := true;
  }

  lemma ReservedNone()
    ensures ReservedAll([]) == 0
  {
  }

  /** Some instruction refers to `l`. */
  predicate Uses(lines: seq<Line>, l: Label) {
    exists i :: 0 <= i < |lines| && lines[i].Ins? && (Ref(l) in lines[i].args || RefAt(l) in lines[i].args)
  }

  /** Both passes: the bytes of the program, or the exception that assembling it throws. */
  method AsmToOpcodes(lines: seq<Line>) returns (r: Result)
    ensures r.InvalidInstruction? <==> !Known(lines)
    ensures r.Binary? <==> Known(lines) && Resolved(lines, lines)
    ensures r.Binary? ==> r.codes == Assembled(lines)
    ensures r.LabelNotFound? ==> !Defined(lines, r.l) && Uses(lines, r.l)
  {
    hide EncodeAll, AddressOf, Resolved, High, Low, Uses, LabelAt;
    var known, addresses := PassOne(lines);
    if !known {
      return InvalidInstruction;
    }
    var start := if Start in addresses then addresses[Start] else 0;
    addresses := addresses[Start := start];
    StartAddress(lines);
    var codes: seq<Byte> := [High(start), if start == 0 then 2 else Low(start)];
    HeaderBytes(lines, start);
    r := PassTwo(lines, codes, addresses);
  }

  method PassTwo(lines: seq<Line>, header: seq<Byte>, addresses: map<Label, Word>) returns (r: Result)
    requires Known(lines)
    requires forall l :: l in addresses <==> Defined(lines, l)
    requires forall l :: l in addresses ==> addresses[l] == AddressOf(lines, l)
    ensures !r.InvalidInstruction?
    ensures r.Binary? <==> Resolved(lines, lines)
    ensures r.Binary? ==> r.codes == header + EncodeAll(lines, lines)
    ensures r.LabelNotFound? ==> !Defined(lines, r.l) && Uses(lines, r.l)
  {
    hide Encode, EncodeAll, AddressOf, ResolvedArgs, OpcodeOf, Uses, Defined, LabelAt;
    var codes := header;
    var i := 0;
    assert lines[0..] == lines;
    while i < |lines|
      invariant 0 <= i <= |lines|
      invariant Known(lines[i..])
      invariant forall j :: 0 <= j < i && lines[j].Ins? ==> ResolvedArgs(lines, lines[j].args)
      invariant codes + EncodeAll(lines, lines[i..]) == header + EncodeAll(lines, lines)
    {
      EncodeNext(lines, i, codes);
      match lines[i] {
        case Mark(_) => assert codes + [] == codes;
        case Skip(n) => codes := codes + Zeros(n);
        case Ins(_, _) =>
          var part := InstructionToOpcode(lines, lines[i], addresses);
          if part.LabelNotFound? {
            UsesHere(lines, i, part.l);
            return part;
          }
          codes := codes + part.codes;
      }
      i := i + 1;
    }
    EncodeNothing(lines, lines[i..], codes);
    return Binary(codes);
  }

  lemma EncodeNext(lines: seq<Line>, i: nat, codes: seq<Byte>)
    requires i < |lines| && Known(lines[i..])
    ensures Known(lines[i + 1..]) && (lines[i].Ins? ==> OpcodeOf(lines[i].m, |lines[i].args|).Some?)
    ensures codes + EncodeAll(lines, lines[i..]) == codes + Encode(lines, lines[i]) + EncodeAll(lines, lines[i + 1..])
    ensures lines[i].Skip? ==> Encode(lines, lines[i]) == Zeros(lines[i].n)
    ensures lines[i].Mark? ==> Encode(lines, lines[i]) == []
  {
    hide Encode;
    assert lines[i..][1..] == lines[i + 1..] && lines[i..][0] == lines[i];
    EncodeShape(lines, lines[i]);
    Associate(codes, Encode(lines, lines[i]), EncodeAll(lines, lines[i + 1..]));
  }

  lemma EncodeNothing(lines: seq<Line>, part: seq<Line>, codes: seq<Byte>)
    requires |part| == 0
    ensures codes + EncodeAll(lines, part) == codes
  {
  }

  lemma UsesHere(lines: seq<Line>, i: nat, l: Label)
    requires i < |lines| && lines[i].Ins? && (Ref(l) in lines[i].args || RefAt(l) in lines[i].args)
    requires !Defined(lines, l)
    ensures Uses(lines, l) && !Resolved(lines, lines)
  {
    var k :| 0 <= k < |lines[i].args| && (lines[i].args[k] == Ref(l) || lines[i].args[k] == RefAt(l));
    assert !ResolvedArg(lines, lines[i].args[k]);
  }

  lemma HeaderBytes(lines: seq<Line>, start: Word)
    requires start == AddressOf(lines, Start)
    ensures [High(start), if start == 0 then 2 else Low(start)] == Header(lines)
  {
  }

  lemma StartAddress(lines: seq<Line>)
    ensures LabelAt(lines, Start) < 0 ==> AddressOf(lines, Start) == 0
    ensures High(0) == 0
  {
  }
}
