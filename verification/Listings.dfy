/** Two texts all the way: "[-]" to its assembly and its bytes, and ",.,." and so on to what its process prints. */
module Listings {
  import opened Bytes
  import opened Brainfuck
  import opened Source
  import opened Asm
  import opened Machine
  import opened CodeTrees
  import opened Translate
  import opened FoldRuns
  import opened LoopPass
  import opened LoopTrees
  import opened Assembler
  import opened Compiler
  import opened Refinement
  import opened EndToEnd
  import opened TextLimits
  import opened Limits
  import opened Commands
  import Vm
  import Isa
  import Lines

  const START_LINES: seq<Line> := [Skip(30000), Mark(Start), Ins(MOV, [Direct(A), Num(2)])]

  // ----- "[-]" -----

  const CLEAR: Prog := Loop(Do(Dec, End), End)

  lemma ClearText()
    ensures Balanced("[-]") && Program("[-]") == CLEAR
  {
    ProgramOfText(CLEAR);
    assert Text(CLEAR) == "[-]";
  }

  lemma ClearFolds()
    ensures FoldTree(Tree(CLEAR, 0), IDLE).0 == While(0, Then(Ins(SUB, [At(A), Num(1)]), Done), Done)
  {
  }

  lemma ClearIsReplaced()
    ensures OptTree(While(0, Then(Ins(SUB, [At(A), Num(1)]), Done), Done)) == Then(Ins(MOV, [At(A), Num(0)]), Done)
  {
    var body := Then(Ins(SUB, [At(A), Num(1)]), Done);
    assert Flatten(body) == [Ins(SUB, [At(A), Num(1)])] + [];
    assert Flatten(body) == CLEAR_BODY;
    assert Prepend([CLEAR_LINE], Done) == Then(CLEAR_LINE, Done);
  }

  lemma FramedOne(line: Line)
    ensures Framed(Then(line, Done)) == START_LINES + [line, Ins(HALT, [])]
  {
    assert Flatten(Then(line, Done)) == [line] + [];
    assert PROLOGUE + ([line] + []) + [HALT_LINE] == START_LINES + [line, HALT_LINE];
  }

  /** The loop becomes one line. */
  lemma {:induction false} ClearListing()
    ensures Balanced("[-]")
    ensures Compiled("[-]") == START_LINES + [Ins(MOV, [At(A), Num(0)]), Ins(HALT, [])]
  {
    hide Program, Balanced, Tree, FoldTree, OptTree, Framed, Compiled;
    ClearText();
    ClearFolds();
    ClearIsReplaced();
    FramedOne(Ins(MOV, [At(A), Num(0)]));
    CompiledIs("[-]");
  }

  lemma CompiledIs(src: string)
    requires Balanced(src)
    ensures Compiled(src) == Framed(OptTree(FoldTree(Tree(Program(src), 0), IDLE).0))
  {
  }

  // ----- bytes -----

  /** The whole binary: where to start, the reserved area, `MOV A, 2`, `MOV [A], 0` and HALT. */
  lemma {:induction false} ClearBytes()
    ensures Balanced("[-]")
    ensures Assembled(Compiled("[-]")) == [0x75, 0x32] + Zeros(30000) + [0x12, 1, 1, 0, 2, 0x12, 3, 1, 0, 0, 0xFF]
  {
    hide Program, Balanced, Compiled, EncodeAll, Header, Zeros, Encode;
    ClearListing();
    var lines := Compiled("[-]");
    CompiledHead("[-]");
    assert lines == [lines[0]] + ([lines[1]] + ([lines[2]] + ([lines[3]] + [lines[4]])));
    LineCodes(lines);
    FiveLines(lines);
    StartIsEntry(lines);
  }

  lemma LineCodes(lines: seq<Line>)
    ensures Encode(lines, Skip(30000)) == Zeros(30000) && Encode(lines, Mark(Start)) == []
    ensures Encode(lines, Ins(MOV, [Direct(A), Num(2)])) == [0x12, 1, 1, 0, 2]
    ensures Encode(lines, Ins(MOV, [At(A), Num(0)])) == [0x12, 3, 1, 0, 0]
    ensures Encode(lines, Ins(HALT, [])) == [0xFF]
  {
    hide EncodeArg, EncodeArgs, Zeros;
    Lines.TwoOperands(lines, MOV, Direct(A), Num(2));
    Lines.TwoOperands(lines, MOV, At(A), Num(0));
    Lines.NumeralBytes(lines, 2);
    Lines.NumeralBytes(lines, 0);
    Lines.RegisterBytes(lines);
    NoArgs(lines);
  }

  lemma NoArgs(lines: seq<Line>)
    ensures EncodeArgs(lines, []) == []
  {
  }

  lemma FiveLines(lines: seq<Line>)
    requires |lines| == 5 && Known(lines)
    requires forall i :: 0 <= i < 5 && lines[i].Ins? ==> Isa.OpcodeOf(lines[i].m, |lines[i].args|).Some?
    ensures EncodeAll(lines, lines) == Encode(lines, lines[0]) + (Encode(lines, lines[1]) + (Encode(lines, lines[2])
      + (Encode(lines, lines[3]) + Encode(lines, lines[4]))))
  {
    hide Encode, EncodeAll;
    assert lines[0..] == lines && lines[5..] == [];
    FirstLine(lines, lines[5..]);
    forall k | 0 <= k < 5 ensures EncodeAll(lines, lines[k..]) == Encode(lines, lines[k]) + EncodeAll(lines, lines[k + 1..]) {
      assert lines[k..][1..] == lines[k + 1..];
      FirstLine(lines, lines[k..]);
    }
  }

  lemma FirstLine(lines: seq<Line>, part: seq<Line>)
    requires Known(part)
    ensures part == [] ==> EncodeAll(lines, part) == []
    ensures part != [] && part[0].Ins? ==> Isa.OpcodeOf(part[0].m, |part[0].args|).Some?
    ensures part != [] ==> EncodeAll(lines, part) == Encode(lines, part[0]) + EncodeAll(lines, part[1..])
  {
    hide Encode;
  }

  // ----- ",.,." and so on -----

  function EchoText(n: nat): string { if n == 0 then "" else ",." + EchoText(n - 1) }

  lemma {:induction false} EchoIsText(n: nat)
    ensures Text(Echo(n)) == EchoText(n)
    ensures NoBrackets(EchoText(n)) && SmallRuns(NoRun, EchoText(n))
  {
    if n > 0 {
      EchoIsText(n - 1);
      var rest := EchoText(n - 1);
      TwoMore(Echo(n - 1));
      SmallPair(rest);
    }
  }

  lemma TwoMore(p: Prog)
    ensures Text(Do(In, Do(Out, p))) == ",." + Text(p)
  {
    assert [','] + (['.'] + Text(p)) == ",." + Text(p);
  }

  lemma SmallPair(rest: string)
    requires SmallRuns(NoRun, rest)
    ensures SmallRuns(NoRun, ",." + rest)
  {
    var src := ",." + rest;
    assert src[0] == ',' && src[1..][0] == '.' && src[1..][1..] == rest;
    assert SmallRuns(NoRun, src[1..]);
  }

  lemma EchoProgram(n: nat)
    ensures Balanced(EchoText(n)) && Program(EchoText(n)) == Echo(n)
  {
    EchoIsText(n);
    ProgramOfText(Echo(n));
  }

  /** Loaded anywhere, the binary of n times ",." halts, having printed the first n numbers of the input modulo 256, with
      0 for those that are missing, and leaves the others unread. */
  lemma {:induction false} EchoProcess(n: nat, s: Vm.State) returns (k: nat)
    requires Balanced(EchoText(n)) && JustLoaded(Assembled(Compiled(EchoText(n))), s)
    ensures var t := Vm.Run(s, k);
      && t.status == Vm.Halted && t.output == s.output + FirstNumbers(s.input, n)
      && t.input == s.input[Commands.Min(n, |s.input|)..]
  {
    hide Compiled, JustLoaded, Eval, Vm.Run, EchoText, Echo, FRESH_CELLS, SmallRuns, NoBrackets, Balanced, Program;
    EchoProgram(n);
    EchoIsText(n);
    var w := StartWorld(s);
    EchoPrints(n, w, 0);
    var w1 := Eval(0, Echo(n), w).value;
    FlatTextExact(EchoText(n), s);
    assert Terminates(Program(EchoText(n)), w, w1);
    assert HaltsWith(s, w1);
    k :| Shows(Vm.Run(s, k), w1);
  }
}
