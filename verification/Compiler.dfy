/** The whole compiler: the stages of `Brainfvck::compile` put together, and what they guarantee. */
module Compiler {
  import opened Bytes
  import opened Brainfuck
  import opened Source
  import opened Asm
  import opened Machine
  import opened CodeTrees
  import opened Translate
  import opened FoldRuns
  import opened LoopPass
  import opened LoopTrees
  import opened NarrowLoops
  import opened Assembler
  import opened Refinement

  /** The structured program after each stage. */
  function Parsed(src: string): Code
    requires Balanced(src)
  {
    Tree(Program(src), 0)
  }

  function Folded(src: string): Code
    requires Balanced(src)
  {
    FoldTree(Parsed(src), IDLE).0
  }

  function Optimised(src: string): Code
    requires Balanced(src)
  {
    OptTree(Folded(src))
  }

  /** The assembly that is handed to the assembler: it is in the instruction table and runs on the
      labelled machine. */
  function Compiled(src: string): (lines: seq<Line>)
    requires Balanced(src)
    ensures Runnable(lines) && Known(lines)
  {
    StagesAreSound(src);
    FramedIsRunnable(Optimised(src));
    RunnableIsKnown(Framed(Optimised(src)));
    Framed(Optimised(src))
  }

  function Framed(c: Code): seq<Line> { PROLOGUE + Flatten(c) + [HALT_LINE] }

  // ----- the two passes on the whole text -----

  lemma FramedLies(c: Code)
    requires PlainCode(c) && Distinct(c)
    ensures Placed(Framed(c), 3, c) && 3 + Width(c) + 1 == |Framed(c)|
    ensures Framed(c)[3 + Width(c)] == HALT_LINE
    ensures forall i :: 0 <= i < 3 ==> Framed(c)[i] == PROLOGUE[i]
    ensures Framed(c)[1] == Mark(Start) && LabelAt(Framed(c), Start) == 1
  {
    hide Framed, Flatten, PlainCode, Distinct, Placed, Lies, Width, Ids;
    var lines := Framed(c);
    FrameParts(c);
    forall j | 0 <= j < |lines| && Marks(lines[j], Ids(c)) ensures 3 <= j < 3 + Width(c) {
      MarkInFrame(c, j);
    }
    hide Marks;
    FlattenPlaces(lines, 3, c);
    forall j | 0 <= j < |lines| && lines[j] == Mark(Start) ensures j == 1 {
      MarkInFrame(c, j);
    }
  }

  lemma FrameParts(c: Code)
    ensures |Framed(c)| == 4 + Width(c) && Framed(c)[3 + Width(c)] == HALT_LINE
    ensures forall i :: 0 <= i < 3 ==> Framed(c)[i] == PROLOGUE[i]
    ensures forall i :: 3 <= i < 3 + Width(c) ==> Framed(c)[i] == Flatten(c)[i - 3]
    ensures Lies(Framed(c), 3, Flatten(c))
  {
    hide Flatten;
    BetweenParts(PROLOGUE, Flatten(c), [HALT_LINE]);
  }

  lemma BetweenParts(a: seq<Line>, b: seq<Line>, c: seq<Line>)
    ensures |a + b + c| == |a| + |b| + |c|
    ensures forall i :: 0 <= i < |a| ==> (a + b + c)[i] == a[i]
    ensures forall i :: |a| <= i < |a| + |b| ==> (a + b + c)[i] == b[i - |a|]
    ensures forall i :: |a| + |b| <= i < |a + b + c| ==> (a + b + c)[i] == c[i - |a| - |b|]
    ensures Lies(a + b + c, |a|, b)
  {
    assert (a + b + c)[|a|..|a| + |b|] == b;
  }

  /** The frame's only label is the start label. */
  lemma MarkInFrame(c: Code, j: nat)
    requires PlainCode(c) && j < |Framed(c)| && Framed(c)[j].Mark?
    ensures if 3 <= j < 3 + Width(c) then Marks(Framed(c)[j], Ids(c)) else j == 1 && Framed(c)[j] == Mark(Start)
  {
    hide Framed, Flatten;
    FrameParts(c);
    if 3 <= j < 3 + Width(c) { FlattenMarks(c, j - 3); }
  }

  /** Run folding leaves the frame alone. */
  lemma FoldFrames(c: Code)
    ensures Fold(Framed(c), IDLE) == Framed(FoldTree(c, IDLE).0)
  {
    hide Flatten, Fold, FoldTree;
    var body := Flatten(c) + [HALT_LINE];
    Associate(PROLOGUE, Flatten(c), [HALT_LINE]);
    FoldBarriers(PROLOGUE, body, IDLE);
    FoldFlattens(c, IDLE, [HALT_LINE]);
    FoldTreeIsFlushed(c, IDLE);
    var st := FoldTree(c, IDLE).1;
    FoldHalt(st);
    Associate(PROLOGUE, Flatten(FoldTree(c, IDLE).0), [HALT_LINE]);
    Tidy(PROLOGUE, PROLOGUE);
  }

  lemma FoldHalt(st: Pending)
    requires FlushLines(st) == [] && Flushed(st) == st
    ensures Fold([HALT_LINE], st) == [HALT_LINE]
  {
    assert [HALT_LINE][1..] == [];
    assert Fold([], st) == [];
  }

  /** So does the loop pass. */
  lemma OptimiseFrames(c: Code)
    requires PlainCode(c) && Distinct(c)
    ensures Optimise(Framed(c), 0) == Framed(OptTree(c))
  {
    hide Flatten, Optimise, Replacement, OptTree, Framed;
    var lines := Framed(c);
    FramedLies(c);
    var end := 3 + Width(c);
    PrologueIsCopied(lines);
    OptimiseFlattens(lines, 3, c);
    OptimiseCopies(lines, end);
    OptimiseEnd(lines);
    FramedIs(OptTree(c));
    Tidy([HALT_LINE], [HALT_LINE]);
    Associate(PROLOGUE, Flatten(OptTree(c)), [HALT_LINE]);
  }

  lemma {:induction false} PrologueIsCopied(lines: seq<Line>)
    requires |lines| > 3 && forall i :: 0 <= i < 3 ==> lines[i] == PROLOGUE[i]
    ensures Optimise(lines, 0) == PROLOGUE + Optimise(lines, 3)
  {
    hide *;
    PrologueLines(lines);
    var (r0, r1, r2, r3) := (Optimise(lines, 0), Optimise(lines, 1), Optimise(lines, 2), Optimise(lines, 3));
    CopiedOnly(lines, 0, Skip(30000), r0, r1);
    CopiedOnly(lines, 1, Mark(Start), r1, r2);
    CopiedOnly(lines, 2, Ins(MOV, [Direct(A), Num(2)]), r2, r3);
    ThreeInFront(r3, r2, r1, r0);
  }

  lemma PrologueLines(lines: seq<Line>)
    requires |lines| > 3 && forall i :: 0 <= i < 3 ==> lines[i] == PROLOGUE[i]
    ensures lines[0] == Skip(30000) && lines[1] == Mark(Start) && lines[2] == Ins(MOV, [Direct(A), Num(2)])
  {
  }

  /** A line that starts no loop. */
  lemma CopiedOnly(lines: seq<Line>, at: nat, line: Line, r: seq<Line>, rest: seq<Line>)
    requires at < |lines| && lines[at] == line && !(line.Mark? && line.l.StartPar?)
    requires r == Optimise(lines, at) && rest == Optimise(lines, at + 1)
    ensures r == [line] + rest
  {
    hide *;
    NoLoopHere(lines, at);
    OptimiseCopies(lines, at);
  }

  lemma ThreeInFront(r3: seq<Line>, r2: seq<Line>, r1: seq<Line>, r0: seq<Line>)
    requires r2 == [Ins(MOV, [Direct(A), Num(2)])] + r3 && r1 == [Mark(Start)] + r2 && r0 == [Skip(30000)] + r1
    ensures r0 == PROLOGUE + r3
  {
  }

  lemma NoLoopHere(lines: seq<Line>, at: nat)
    requires at < |lines| && !(lines[at].Mark? && lines[at].l.StartPar?)
    ensures ParseLoop(lines, at).None?
  {
  }

  lemma FramedIs(c: Code)
    ensures Framed(c) == PROLOGUE + Flatten(c) + [HALT_LINE]
  {
  }

  lemma OptimiseEnd(lines: seq<Line>)
    ensures Optimise(lines, |lines|) == []
  {
  }

  // ----- facts about the stages -----

  lemma {:induction false} TreeIsSimple(p: Prog, n: nat)
    ensures UnitSteps(Tree(p, n)) && CoreCode(Tree(p, n))
  {
    match p
    case End =>
    case Do(cmd, rest) => TreeIsSimple(rest, n);
    case Loop(body, rest) =>
      TreeIsSimple(body, n + 1);
      TreeIsSimple(rest, n + 1 + Loops(body));
  }

  lemma {:induction false} PrependIsCore(lines: seq<Line>, c: Code)
    requires CoreCode(c) && forall i :: 0 <= i < |lines| ==> CoreLine(lines[i])
    ensures CoreCode(Prepend(lines, c))
  {
    hide CoreLine;
    if lines != [] { PrependIsCore(lines[1..], c); }
  }

  lemma {:induction false} FoldIsCore(c: Code, st: Pending)
    requires CoreCode(c)
    ensures CoreCode(FoldTree(c, st).0)
    decreases c
  {
    match c
    case Done => PrependIsCore(FlushLines(st), Done);
    case Then(line, rest) =>
      FoldIsCore(rest, Next(st, line));
      PrependIsCore(Emitted(st, line), FoldTree(rest, Next(st, line)).0);
    case While(id, body, rest) =>
      var b := FoldTree(body, Flushed(st));
      FoldIsCore(body, Flushed(st));
      FoldIsCore(rest, b.1);
      PrependIsCore(FlushLines(st), While(id, b.0, FoldTree(rest, b.1).0));
  }

  /** All stages are well formed. */
  lemma StagesAreSound(src: string)
    requires Balanced(src)
    ensures PlainCode(Parsed(src)) && Distinct(Parsed(src)) && UnitSteps(Parsed(src))
    ensures CoreCode(Folded(src)) && PlainCode(Folded(src)) && Distinct(Folded(src))
    ensures PlainCode(Optimised(src)) && Distinct(Optimised(src))
  {
    hide Program, Tree, FoldTree, OptTree, PlainCode, Distinct, CoreCode;
    TreeIsPlain(Program(src), 0);
    TreeIsDistinct(Program(src), 0);
    TreeIsSimple(Program(src), 0);
    FoldIsPlain(Parsed(src), IDLE);
    FoldIsCore(Parsed(src), IDLE);
    FoldKeepsLoops(Parsed(src), IDLE);
    OptTreeIsPlain(Folded(src));
    OptKeepsLoops(Folded(src));
  }

  /** The passes on text produce the flattened stages. */
  lemma PassesCompose(src: string)
    requires Balanced(src)
    ensures Optimise(Fold(Unoptimised(src), IDLE), 0) == Compiled(src)
  {
    hide Framed, Optimise, Fold, Program, Tree, FoldTree, OptTree, Flatten;
    StagesAreSound(src);
    FramedIs(Parsed(src));
    FoldFrames(Parsed(src));
    OptimiseFrames(Folded(src));
  }

  // ----- the compiled program on the labelled machine -----

  /** Lines of placed code are instructions of the labelled machine, and their labels are defined. */
  lemma {:induction false} PlacedIsSupported(lines: seq<Line>, at: nat, c: Code, j: nat)
    requires Placed(lines, at, c) && at <= j < at + Width(c)
    ensures j < |lines| && Supported(lines, lines[j])
    decreases c
  {
    hide *;
    match c
    case Done => PlacedDone(lines, at, c);
    case Then(line, rest) =>
      PlacedThen(lines, at, c);
      if j > at { PlacedIsSupported(lines, at + 1, rest, j); } else { PlainIsSupported(lines, line); }
    case While(id, body, rest) =>
      var z := at + 3 + Width(body);
      PlacedWhile(lines, at, c);
      if at + 3 <= j < z {
        PlacedIsSupported(lines, at + 3, body, j);
      } else if j >= z + 3 {
        PlacedIsSupported(lines, z + 3, rest, j);
      } else {
        LoopLine(lines, at, c, j);
        LoopLabels(lines, at, id, body, rest);
        LoopLineIsSupported(lines, id, lines[j]);
      }
  }

  lemma PlainIsSupported(lines: seq<Line>, line: Line)
    requires Plain(line)
    ensures Supported(lines, line)
  {
  }

  lemma LoopLineIsSupported(lines: seq<Line>, id: nat, line: Line)
    requires LabelAt(lines, StartPar(id)) >= 0 && LabelAt(lines, ClosePar(id)) >= 0
    requires line in [Mark(StartPar(id)), Mark(ClosePar(id)), TEST_ZERO, Ins(JE, [Ref(ClosePar(id))]), Ins(JNE, [Ref(StartPar(id))])]
    ensures Supported(lines, line)
  {
  }

  lemma FramedIsRunnable(c: Code)
    requires PlainCode(c) && Distinct(c)
    ensures Runnable(Framed(c))
  {
    hide Framed, Flatten, Supported;
    FramedLies(c);
    var lines := Framed(c);
    forall i | 1 <= i < |lines| ensures Supported(lines, lines[i]) {
      if 3 <= i < 3 + Width(c) {
        PlacedIsSupported(lines, 3, c, i);
      } else {
        FrameIsSupported(lines, i);
      }
    }
  }

  lemma FrameIsSupported(lines: seq<Line>, i: nat)
    requires i < |lines| && (lines[i] == HALT_LINE || lines[i] == Mark(Start) || lines[i] == PROLOGUE[2])
    ensures Supported(lines, lines[i])
  {
  }

  /** The state behind the prologue. */
  function Begun(s: Cpu): Cpu { s.(a := 2) }

  lemma Prelude(c: Code, s: Cpu)
    requires PlainCode(c) && Distinct(c)
    ensures Machine.Run(Framed(c), Config(1, s, false), 2) == Config(3, Begun(s), false)
  {
    FramedLies(c);
    var lines := Framed(c);
    var k1 := Config(2, s, false);
    assert Machine.Step(lines, Config(1, s, false)) == k1;
    MoveTwo(s);
    LineStep(lines, k1);
    hide Machine.Step, Framed;
    assert Machine.Run(lines, Config(1, s, false), 2) == Machine.Run(lines, k1, 1) == Machine.Run(lines, Machine.Step(lines, k1), 0);
  }

  lemma MoveTwo(s: Cpu)
    ensures Plain(PROLOGUE[2]) && Exec(PROLOGUE[2], s) == Begun(s)
  {
  }

  /** Flat code in its frame halts iff the structured code ends, in the same state. */
  lemma FramedRuns(c: Code, s: Cpu, fuel: nat) returns (n: nat)
    requires PlainCode(c) && Distinct(c) && EvalCode(fuel, c, Begun(s)).Some?
    ensures var k := Machine.Run(Framed(c), Config(1, s, false), n);
      k.halted && k.cpu == EvalCode(fuel, c, Begun(s)).value
  {
    hide Framed, Flatten, Machine.Step, Placed;
    FramedLies(c);
    Prelude(c, s);
    var lines := Framed(c);
    n := FlatFollows(lines, 3, c, Begun(s), fuel);
    Machine.RunAdd(lines, Config(1, s, false), 2, n);
    var k := Config(3 + Width(c), EvalCode(fuel, c, Begun(s)).value, false);
    LineStep(lines, k);
    Machine.RunAdd(lines, Config(1, s, false), 2 + n, 1);
    assert Machine.Run(lines, k, 1) == Machine.Run(lines, Machine.Step(lines, k), 0);
    n := 2 + n + 1;
  }

  lemma FramedHalts(c: Code, s: Cpu, n: nat)
    requires PlainCode(c) && Distinct(c) && Machine.Run(Framed(c), Config(1, s, false), n).halted
    ensures EvalCode(n, c, Begun(s)).Some?
    ensures Machine.Run(Framed(c), Config(1, s, false), n).cpu == EvalCode(n, c, Begun(s)).value
  {
    hide Framed, Flatten, Machine.Step, Placed;
    FramedLies(c);
    Prelude(c, s);
    var lines := Framed(c);
    var k0 := Config(1, s, false);
    AtLeast(lines, k0, n, 2);
    var m := FlatHaltsThrough(lines, 3, c, Begun(s), n - 2);
    EvalCodeMonotone(n - 2, n, c, Begun(s));
    var k := Config(3 + Width(c), EvalCode(n, c, Begun(s)).value, false);
    Machine.RunAdd(lines, k0, 2, m);
    LineStep(lines, k);
    AtLeast(lines, k0, n, 2 + m);
    Machine.RunAdd(lines, k0, 2 + m, n - 2 - m);
    HaltedNext(lines, k, n - 2 - m);
  }

  /** A machine one HALT away from stopping. */
  lemma HaltedNext(lines: seq<Line>, k: Config, n: nat)
    requires !k.halted && Machine.Step(lines, k) == k.(halted := true) && Machine.Run(lines, k, n).halted
    ensures Machine.Run(lines, k, n) == k.(halted := true)
  {
    hide Machine.Step;
    if n > 0 { Machine.RunHalted(lines, k.(halted := true), n - 1); }
  }

  // ----- meaning preserved, stage by stage and as a whole -----

  /** Where the Brainfuck program ends, the optimised code ends, with the same observable state. */
  lemma OptimisedFollows(src: string, s: Cpu, fuel: nat)
    requires Balanced(src) && PlainCode(Optimised(src)) && Countdowns(Folded(src))
    requires Eval(fuel, Program(src), Core(s)).Some?
    ensures EvalCode(fuel, Optimised(src), s).Some?
    ensures Core(EvalCode(fuel, Optimised(src), s).value) == Eval(fuel, Program(src), Core(s)).value
  {
    hide Program, Tree, FoldTree, OptTree, PlainCode, Countdowns, CoreCode, EvalCode;
    StagesAreSound(src);
    TreeMeans(fuel, Program(src), 0, s);
    FoldMeans(fuel, Parsed(src), IDLE, s);
    ApplyNothing(IDLE);
    OptFollows(fuel, Folded(src), s, s);
  }

  /** And the other way round. */
  lemma OptimisedHalts(src: string, s: Cpu, fuel: nat) returns (more: nat)
    requires Balanced(src) && PlainCode(Optimised(src)) && Countdowns(Folded(src))
    requires EvalCode(fuel, Optimised(src), s).Some?
    ensures Eval(more, Program(src), Core(s)).Some?
    ensures Core(EvalCode(fuel, Optimised(src), s).value) == Eval(more, Program(src), Core(s)).value
  {
    hide Program, Tree, FoldTree, OptTree, PlainCode, Countdowns, CoreCode, EvalCode;
    StagesAreSound(src);
    more := OptHalts(fuel, Folded(src), s, s);
    TreeMeans(more, Program(src), 0, s);
    FoldMeans(more, Parsed(src), IDLE, s);
    ApplyNothing(IDLE);
  }

  /** Code without numerals above 255 has only right replacements. */
  lemma NarrowIsCountdown(src: string)
    requires Balanced(src) && Narrow(Compiled(src))
    ensures Countdowns(Folded(src))
  {
    hide Narrow, Flatten;
    var c := Optimised(src);
    NarrowParts(PROLOGUE + Flatten(c), [HALT_LINE]);
    NarrowParts(PROLOGUE, Flatten(c));
    NarrowIsSafe(Folded(src));
  }

  // ----- the method -----

  datatype CompileResult = Bytecode(codes: seq<Byte>) | UnmatchedClose | UnmatchedOpen

  /** `compile` throws iff the brackets do not match; otherwise it writes the assembled bytes of the
      optimised program. Assembling never fails on the compiler's own output. */
  method Compile(src: string) returns (r: CompileResult)
    ensures r.UnmatchedClose? <==> Dips(src)
    ensures r.UnmatchedOpen? <==> !Dips(src) && Depth(src) > 0
    ensures r.Bytecode? <==> Balanced(src)
    ensures r.Bytecode? ==> r.codes == Assembled(Compiled(src))
  {
    hide Optimise, Fold, Unoptimised, Compiled, Known, Resolved, Assembled;
    var text := TranslateText(src);
    if text.UnmatchedClose? {
      return CompileResult.UnmatchedClose;
    }
    if text.UnmatchedOpen? {
      return CompileResult.UnmatchedOpen;
    }
    var folded := ApplyOptimizations(text.lines);
    var optimised := ApplyLoopOptimizations(folded);
    PassesCompose(src);
    CompiledIsRunnable(src);
    RunnableIsKnown(optimised);
    var binary := AsmToOpcodes(optimised);
    return Bytecode(binary.codes);
  }

  lemma CompiledIsRunnable(src: string)
    requires Balanced(src)
    ensures Runnable(Compiled(src)) && Known(Compiled(src))
    ensures LabelAt(Compiled(src), Start) == 1
  {
    hide Framed, Runnable, Known;
    StagesAreSound(src);
    FramedIsRunnable(Optimised(src));
    FramedLies(Optimised(src));
    RunnableIsKnown(Framed(Optimised(src)));
  }
}
