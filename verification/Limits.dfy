/** Where the compiler goes wrong: numerals above 255. Run folding happily writes them, the assembler
    encodes them as NUMBER_16, and the machine cannot resolve that type. */
module Limits {
  import opened Bytes
  import opened Brainfuck
  import opened Source
  import opened Asm
  import opened Machine
  import opened CodeTrees
  import opened Translate
  import opened FoldRuns
  import opened LoopTrees
  import opened NarrowLoops
  import opened Assembler
  import opened Refinement
  import opened Compiler
  import opened EndToEnd
  import Vm

  // ----- text without loops -----

  predicate Straight(c: Code) {
    match c
    case Done => true
    case Then(_, rest) => Straight(rest)
    case While(_, _, _) => false
  }

  lemma {:induction false} PrependStraight(lines: seq<Line>, c: Code)
    requires Straight(c)
    ensures Straight(Prepend(lines, c))
  {
    if lines != [] { PrependStraight(lines[1..], c); }
  }

  lemma {:induction false} TreeStraight(p: Prog, n: nat)
    requires Loops(p) == 0
    ensures Straight(Tree(p, n))
  {
    if p.Do? { TreeStraight(p.rest, n); }
  }

  lemma {:induction false} FoldStraight(c: Code, st: Pending)
    requires Straight(c)
    ensures Straight(FoldTree(c, st).0)
    decreases c
  {
    match c
    case Done => PrependStraight(FlushLines(st), Done);
    case Then(line, rest) =>
      FoldStraight(rest, Next(st, line));
      PrependStraight(Emitted(st, line), FoldTree(rest, Next(st, line)).0);
  }

  lemma {:induction false} OptStraight(c: Code)
    requires Straight(c)
    ensures OptTree(c) == c
  {
    if c.Then? { OptStraight(c.rest); }
  }

  lemma {:induction false} StraightLines(c: Code, j: nat)
    requires Straight(c) && CoreCode(c) && j < Width(c)
    ensures CoreLine(Flatten(c)[j])
  {
    if j > 0 { StraightLines(c.rest, j - 1); }
  }

  /** A program without loops always ends. */
  lemma {:induction false} StraightEnds(p: Prog, w: World)
    requires Loops(p) == 0
    ensures Eval(0, p, w).Some?
  {
    if p.Do? { StraightEnds(p.rest, Perform(p.cmd, w)); }
  }

  /** Computing lines run through, one by one. */
  lemma {:induction false} PlainRun(lines: seq<Line>, at: nat, s: Cpu, m: nat, limit: nat)
    requires at + m <= limit <= |lines| && forall j :: at <= j < at + m ==> Plain(lines[j])
    ensures Machine.Run(lines, Config(at, s, false), m).pc == at + m
    ensures !Machine.Run(lines, Config(at, s, false), m).halted
    ensures StaysBefore(lines, Config(at, s, false), m, limit)
    decreases m
  {
    hide Exec, Plain, Machine.Step;
    if m > 0 {
      PlainIsInstruction(lines[at]);
      LineStep(lines, Config(at, s, false));
      PlainRun(lines, at + 1, Exec(lines[at], s), m - 1, limit);
    }
  }

  /** The first line with a numeral above 255. */
  function FirstWide(lines: seq<Line>): (i: nat)
    requires !Narrow(lines)
    ensures i < |lines| && !NarrowLine(lines[i]) && Narrow(lines[..i])
  {
    if !NarrowLine(lines[0]) then 0
    else
      WideTail(lines);
      assert forall i :: 1 <= i <= |lines| ==> lines[..i][1..] == lines[1..][..i - 1];
      var i := 1 + FirstWide(lines[1..]);
      NarrowCons(lines, i);
      i
  }

  lemma WideTail(lines: seq<Line>)
    requires !Narrow(lines) && NarrowLine(lines[0])
    ensures !Narrow(lines[1..])
  {
    var i :| 0 <= i < |lines| && !NarrowLine(lines[i]);
    assert lines[1..][i - 1] == lines[i];
  }

  lemma NarrowCons(lines: seq<Line>, i: nat)
    requires 1 <= i <= |lines| && NarrowLine(lines[0]) && Narrow(lines[1..][..i - 1])
    ensures Narrow(lines[..i])
  {
    assert lines[..i] == [lines[0]] + lines[1..][..i - 1];
    NarrowParts([lines[0]], lines[1..][..i - 1]);
  }

  /** In the frame of straight code, the first wide line and all lines between the start label and it compute. */
  lemma WideLine(c: Code) returns (i: nat)
    requires Straight(c) && CoreCode(c) && !Narrow(Framed(c))
    ensures 3 <= i < |Framed(c)| && !NarrowLine(Framed(c)[i]) && Narrow(Framed(c)[..i])
    ensures Plain(Framed(c)[i]) && Framed(c)[i].m != CMP
    ensures forall j :: 2 <= j < i ==> Plain(Framed(c)[j])
  {
    FrameParts(c);
    i := FirstWide(Framed(c));
    WideIsInside(c, i);
    hide Framed, Flatten, Plain, NarrowLine, CoreLine, Narrow;
    forall j | 2 <= j <= i ensures Plain(Framed(c)[j]) && (j == i ==> Framed(c)[j].m != CMP) {
      if j > 2 {
        StraightLines(c, j - 3);
        CoreIsPlain(Flatten(c)[j - 3]);
      } else {
        MoveTwoIsPlain();
      }
    }
  }

  lemma MoveTwoIsPlain()
    ensures Plain(PROLOGUE[2])
  {
  }

  /** Without loops the compiled process throws as soon as there is a numeral above 255. */
  lemma StraightThrows(src: string, s: Vm.State) returns (n: nat)
    requires Balanced(src) && Loops(Program(src)) == 0 && !Narrow(Compiled(src))
    requires JustLoaded(Assembled(Compiled(src)), s)
    ensures Vm.Run(s, n).status == Vm.Fault(Vm.UnknownType)
  {
    hide *;
    StraightStages(src);
    StartsThere(src, s);
    CompiledIsRunnable(src);
    FramedCompiled(src);
    var i := WideLine(Optimised(src));
    CompiledHead(src);
    n := StraightLinesThrow(Compiled(src), s, i);
  }

  lemma StraightLinesThrow(lines: seq<Line>, s: Vm.State, i: nat) returns (n: nat)
    requires Runnable(lines) && Refinement.Loaded(lines, s) && 3 <= i < |lines| && lines[1] == Mark(Start)
    requires s == ImageOf(lines, s, Config(1, StartCpu(s), false))
    requires Narrow(lines[..i]) && !NarrowLine(lines[i]) && Plain(lines[i]) && lines[i].m != CMP
    requires forall j :: 2 <= j < i ==> Plain(lines[j])
    ensures Vm.Run(s, n).status == Vm.Fault(Vm.UnknownType)
  {
    hide *;
    LoadedFits(lines, s);
    var cpu := StartCpu(s);
    StraightArrives(lines, cpu, i);
    FirstInside(lines, cpu);
    n := WideRunThrows(lines, s, Config(1, cpu, false), i - 1, i);
  }

  lemma StraightArrives(lines: seq<Line>, cpu: Cpu, i: nat)
    requires 3 <= i < |lines| && lines[1] == Mark(Start) && forall j :: 2 <= j < i ==> Plain(lines[j])
    ensures StaysBefore(lines, Config(1, cpu, false), i - 1, i)
    ensures var k := Machine.Run(lines, Config(1, cpu, false), i - 1); k.pc == i && !k.halted
  {
    hide *;
    PlainRun(lines, 2, cpu, i - 2, i);
    StartStep(lines, cpu, i);
  }

  lemma FirstInside(lines: seq<Line>, cpu: Cpu)
    requires |lines| >= 1
    ensures Inside(lines, Config(1, cpu, false))
  {
  }

  lemma CoreIsPlain(line: Line)
    requires CoreLine(line)
    ensures Plain(line) && line.m != CMP
  {
  }

  lemma StraightStages(src: string)
    requires Balanced(src) && Loops(Program(src)) == 0
    ensures Straight(Optimised(src)) && CoreCode(Optimised(src))
  {
    StagesAreSound(src);
    TreeStraight(Program(src), 0);
    FoldStraight(Parsed(src), IDLE);
    OptStraight(Folded(src));
  }

  /** The frame itself is narrow. */
  lemma WideIsInside(c: Code, i: nat)
    requires i < |Framed(c)| && !NarrowLine(Framed(c)[i])
    ensures 3 <= i < 3 + Width(c)
  {
    hide Framed;
    FrameParts(c);
  }

  lemma StartStep(lines: seq<Line>, cpu: Cpu, limit: nat)
    requires 2 <= limit <= |lines| && lines[1] == Mark(Start)
    requires StaysBefore(lines, Config(2, cpu, false), limit - 2, limit)
    ensures Machine.Run(lines, Config(1, cpu, false), limit - 1) == Machine.Run(lines, Config(2, cpu, false), limit - 2)
    ensures StaysBefore(lines, Config(1, cpu, false), limit - 1, limit)
  {
    assert Machine.Step(lines, Config(1, cpu, false)) == Config(2, cpu, false);
    hide Machine.Step;
  }

  lemma FaultStays(s: Vm.State, n: nat, w: World)
    requires Vm.Run(s, n).status.Fault?
    ensures !HaltsWith(s, w)
  {
    hide Vm.Run;
    if HaltsWith(s, w) {
      var m: nat :| Shows(Vm.Run(s, m), w);
      FaultIsFinal(s, n, m);
    }
  }

  /** The process agrees with the program on every outcome. */
  ghost predicate Agrees(src: string, s: Vm.State)
    requires Balanced(src)
  {
    forall w :: HaltsWith(s, w) <==> Terminates(Program(src), StartWorld(s), w)
  }

  /** For texts without loops the condition on numerals is exact: the compiled process does what the
      program does iff the assembly has no numeral above 255. */
  lemma {:induction false} LoopFreeExact(src: string, s: Vm.State)
    requires Balanced(src) && Loops(Program(src)) == 0
    requires JustLoaded(Assembled(Compiled(src)), s)
    ensures Agrees(src, s) <==> Narrow(Compiled(src))
  {
    hide Compiled, Narrow, Known, JustLoaded, Terminates, HaltsWith, FRESH_CELLS;
    if Narrow(Compiled(src)) {
      forall w ensures HaltsWith(s, w) <==> Terminates(Program(src), StartWorld(s), w) {
        CompilerIsCorrect(src, s, w);
      }
    } else {
      var n := StraightThrows(src, s);
      StraightEnds(Program(src), StartWorld(s));
      var w := Eval(0, Program(src), StartWorld(s)).value;
      TerminatesNow(Program(src), StartWorld(s), w);
      FaultStays(s, n, w);
    }
  }

  lemma TerminatesNow(p: Prog, w: World, w1: World)
    requires Eval(0, p, w) == Some(w1)
    ensures Terminates(p, w, w1)
  {
  }

  // ----- a loop that is replaced wrongly -----

  /** `k` times the same step, then `rest`. */
  function Repeat(cmd: Cmd, k: nat, rest: Prog): Prog { if k == 0 then rest else Do(cmd, Repeat(cmd, k - 1, rest)) }

  lemma {:induction false} RepeatFolds(right: bool, k: nat, rest: Prog, n: nat, m: int)
    ensures var cmd := if right then Right else Left;
      FoldTree(Tree(Repeat(cmd, k, rest), n), Pending(false, true, m))
        == FoldTree(Tree(rest, n), Pending(false, true, if right then m + k else m - k))
  {
    hide *;
    var cmd := if right then Right else Left;
    RepeatMore(cmd, k, rest);
    if k > 0 {
      var m1 := if right then m + 1 else m - 1;
      RepeatFolds(right, k - 1, rest, n, m1);
      MoveIsAbsorbed(right, Repeat(cmd, k - 1, rest), n, m);
    }
  }

  lemma MoveIsAbsorbed(right: bool, rest: Prog, n: nat, m: int)
    ensures FoldTree(Tree(Do(if right then Right else Left, rest), n), Pending(false, true, m))
         == FoldTree(Tree(rest, n), Pending(false, true, if right then m + 1 else m - 1))
  {
    hide FoldTree;
    FoldStep(if right then Right else Left, rest, n, Pending(false, true, m));
  }

  /** A minus sign, 256 times '>', a plus sign and 256 times '<'. */
  function FarProgram(): Prog { Do(Dec, Do(Right, Repeat(Right, 255, Do(Inc, Repeat(Left, 256, End))))) }

  /** The way back, and the change with it. */
  lemma FarEnd(n: nat)
    ensures FoldTree(Tree(Repeat(Left, 256, End), n), IDLE) == (Then(Ins(SUB, [Direct(A), Num(256)]), Done), IDLE)
  {
    RepeatMore(Left, 256, End);
    FirstMove(Left, Repeat(Left, 255, End), n);
    FoldLast(Pending(false, true, -256));
    assert FlushLines(Pending(false, true, -256)) == [Ins(SUB, [Direct(A), Num(256)])];
    hide Repeat, FoldTree, FlushLines;
    RepeatFolds(false, 255, End, n, -1);
  }

  lemma FirstMove(cmd: Cmd, rest: Prog, n: nat)
    requires cmd.Right? || cmd.Left?
    ensures FoldTree(Tree(Do(cmd, rest), n), IDLE)
         == FoldTree(Tree(rest, n), Pending(false, true, if cmd.Right? then 1 else -1))
  {
    hide FoldTree;
    FoldStep(cmd, rest, n, IDLE);
  }

  lemma FarTurn(n: nat)
    ensures FoldTree(Tree(Do(Inc, Repeat(Left, 256, End)), n), Pending(false, true, 255))
         == (Then(Ins(ADD, [Direct(A), Num(255)]), Then(Ins(ADD, [At(A), Num(1)]),
             Then(Ins(SUB, [Direct(A), Num(256)]), Done))), IDLE)
  {
    var st := Pending(false, true, 255);
    assert Emitted(st, LineOf(Inc)) == [Ins(ADD, [Direct(A), Num(255)]), Ins(ADD, [At(A), Num(1)])];
    assert Next(st, LineOf(Inc)) == IDLE;
    hide Repeat, FoldTree, Emitted, Next, Prepend;
    FarEnd(n);
    FoldStep(Inc, Repeat(Left, 256, End), n, st);
    PrependTwo(Ins(ADD, [Direct(A), Num(255)]), Ins(ADD, [At(A), Num(1)]), Then(Ins(SUB, [Direct(A), Num(256)]), Done));
  }

  lemma FarMiddle(n: nat)
    ensures FoldTree(Tree(Repeat(Right, 255, Do(Inc, Repeat(Left, 256, End))), n), IDLE)
         == (Then(Ins(ADD, [Direct(A), Num(255)]), Then(Ins(ADD, [At(A), Num(1)]),
             Then(Ins(SUB, [Direct(A), Num(256)]), Done))), IDLE)
  {
    hide *;
    var turn := Do(Inc, Repeat(Left, 256, End));
    RepeatMore(Right, 255, turn);
    FirstMove(Right, Repeat(Right, 254, turn), n);
    FarTurn(n);
    RepeatFolds(true, 254, turn, n, 1);
  }

  /** Such a loop is one of those that LoopTrees.FarBodyFails is about. */
  lemma {:induction false} FarBodyIsFolded(n: nat)
    ensures FoldTree(Tree(Loop(FarProgram(), End), n), IDLE).0 == While(n, FAR_BODY, Done)
  {
    hide Repeat, FoldTree;
    var far := Repeat(Right, 255, Do(Inc, Repeat(Left, 256, End)));
    FarMiddle(n + 1);
    FoldStep(Dec, Do(Right, far), n + 1, IDLE);
    FoldStep(Right, far, n + 1, Pending(true, false, -1));
    assert Emitted(Pending(true, false, -1), LineOf(Right)) == [Ins(SUB, [At(A), Num(1)]), Ins(ADD, [Direct(A), Num(1)])];
    PrependTwo(Ins(SUB, [At(A), Num(1)]), Ins(ADD, [Direct(A), Num(1)]), FoldTree(Tree(far, n + 1), IDLE).0);
    FoldLast(IDLE);
    FoldLoop(FarProgram(), n);
  }

  lemma FoldStep(cmd: Cmd, rest: Prog, n: nat, st: Pending)
    ensures var r := FoldTree(Tree(rest, n), Next(st, LineOf(cmd)));
      FoldTree(Tree(Do(cmd, rest), n), st) == (Prepend(Emitted(st, LineOf(cmd)), r.0), r.1)
  {
  }

  lemma PrependTwo(x: Line, y: Line, c: Code)
    ensures Prepend([x, y], c) == Then(x, Then(y, c))
  {
    assert [x, y][1..] == [y] && [y][1..] == [];
    assert Prepend([y], c) == Then(y, Prepend([], c));
  }

  lemma FoldLast(st: Pending)
    ensures FoldTree(Done, st) == (Prepend(FlushLines(st), Done), Flushed(st))
  {
  }

  lemma FoldLoop(body: Prog, n: nat)
    ensures var b := FoldTree(Tree(body, n + 1), IDLE);
      FoldTree(Tree(Loop(body, End), n), IDLE).0 == While(n, b.0, FoldTree(Done, b.1).0)
  {
  }

  lemma RepeatMore(cmd: Cmd, k: nat, rest: Prog)
    ensures Repeat(cmd, k, rest) == if k == 0 then rest else Do(cmd, Repeat(cmd, k - 1, rest))
  {
  }

  // ----- text with loops -----

  /** The first numeral above 255 stands outside every loop. */
  predicate WideAtTop(c: Code) {
    match c
    case Done => false
    case Then(line, rest) => !NarrowLine(line) || WideAtTop(rest)
    case While(_, body, rest) => Narrow(Flatten(body)) && WideAtTop(rest)
  }

  /** Placed code has no HALT, and its jumps stay inside it. */
  lemma {:induction false} PlacedJumps(lines: seq<Line>, at: nat, c: Code, j: nat)
    requires Placed(lines, at, c) && at <= j < at + Width(c)
    ensures j < |lines| && lines[j] != HALT_LINE
    ensures Jump(lines[j]) ==> at <= LabelAt(lines, lines[j].args[0].l) < at + Width(c)
    decreases c
  {
    hide *;
    match c
    case Done => PlacedDone(lines, at, c);
    case Then(line, rest) =>
      PlacedThen(lines, at, c);
      if j > at { PlacedJumps(lines, at + 1, rest, j); } else { PlainIsNoJump(line); }
    case While(id, body, rest) =>
      var z := at + 3 + Width(body);
      PlacedWhile(lines, at, c);
      if at + 3 <= j < z {
        PlacedJumps(lines, at + 3, body, j);
      } else if j >= z + 3 {
        PlacedJumps(lines, z + 3, rest, j);
      } else {
        LoopLine(lines, at, c, j);
        LoopLabels(lines, at, id, body, rest);
        LoopLineJumps(id, lines[j]);
      }
  }

  lemma PlainIsNoJump(line: Line)
    requires Plain(line)
    ensures line != HALT_LINE && !Jump(line)
  {
  }

  lemma LoopLineJumps(id: nat, line: Line)
    requires line in [Mark(StartPar(id)), Mark(ClosePar(id)), TEST_ZERO, Ins(JE, [Ref(ClosePar(id))]), Ins(JNE, [Ref(StartPar(id))])]
    ensures line != HALT_LINE
    ensures Jump(line) ==> line.Ins? && |line.args| == 1 && line.args[0].Ref? && line.args[0].l in [StartPar(id), ClosePar(id)]
  {
  }

  /** The index of that numeral's line; everything from `at` up to it is narrow and jumps no further. */
  lemma {:induction false} TopIndex(lines: seq<Line>, at: nat, c: Code) returns (i: nat)
    requires Placed(lines, at, c) && WideAtTop(c)
    ensures at <= i < at + Width(c) && i < |lines| && !NarrowLine(lines[i])
    ensures forall j :: at <= j < i ==> Passable(lines, j, i)
    decreases c
  {
    hide LabelAt, Lies, Only, Flatten, NarrowLine, Narrow, Jump, Plain;
    match c
    case Then(line, rest) =>
      if NarrowLine(line) {
        i := TopIndex(lines, at + 1, rest);
        PlainIsPassable(lines, at, i);
      } else {
        i := at;
      }
    case While(id, body, rest) =>
      var z := at + 3 + Width(body);
      PlacedLoop(lines, at, id, body, rest);
      i := TopIndex(lines, z + 3, rest);
      forall j | at <= j < z + 3 ensures Passable(lines, j, i) {
        LoopIsPassable(lines, at, c, j, i);
      }
  }

  /** A narrow line that does not leave the lines up to `i`. */
  predicate Passable(lines: seq<Line>, j: nat, i: nat) {
    && j < |lines| && NarrowLine(lines[j]) && lines[j] != HALT_LINE
    && (Jump(lines[j]) ==> LabelAt(lines, lines[j].args[0].l) <= i)
  }

  lemma PlainIsPassable(lines: seq<Line>, j: nat, i: nat)
    requires j < |lines| && Plain(lines[j]) && NarrowLine(lines[j])
    ensures Passable(lines, j, i)
  {
  }

  lemma LoopIsPassable(lines: seq<Line>, at: nat, c: Code, j: nat, i: nat)
    requires c.While? && Placed(lines, at, c) && Narrow(Flatten(c.body))
    requires at <= j < at + 6 + Width(c.body) <= i
    ensures Passable(lines, j, i)
  {
    hide *;
    var z := at + 3 + Width(c.body);
    if at + 3 <= j < z {
      BodyIsPlaced(lines, at, c);
      BodyIsPassable(lines, at + 3, c.body, j, i);
    } else {
      PlacedLoop(lines, at, c.id, c.body, c.rest);
      LoopLabels(lines, at, c.id, c.body, c.rest);
      LoopLineIsPassable(lines, c.id, j, i);
    }
  }

  lemma BodyIsPlaced(lines: seq<Line>, at: nat, c: Code)
    requires c.While? && Placed(lines, at, c)
    ensures Placed(lines, at + 3, c.body)
  {
  }

  lemma BodyIsPassable(lines: seq<Line>, at: nat, c: Code, j: nat, i: nat)
    requires Placed(lines, at, c) && Narrow(Flatten(c)) && at <= j < at + Width(c) <= i
    ensures Passable(lines, j, i)
  {
    hide LabelAt, Placed, Plain, NarrowLine, Jump, Flatten, Lies;
    PlacedJumps(lines, at, c, j);
    PlacedLiesThere(lines, at, c);
    LiesAt(lines, at, Flatten(c), j - at);
    assert NarrowLine(Flatten(c)[j - at]);
  }

  lemma LoopLineIsPassable(lines: seq<Line>, id: nat, j: nat, i: nat)
    requires j < |lines|
    requires lines[j] in {Mark(StartPar(id)), Mark(ClosePar(id)), TEST_ZERO, Ins(JE, [Ref(ClosePar(id))]), Ins(JNE, [Ref(StartPar(id))])}
    requires LabelAt(lines, StartPar(id)) <= i && LabelAt(lines, ClosePar(id)) <= i
    ensures Passable(lines, j, i)
  {
    hide LabelAt;
  }

  /** A compiled text whose first numeral above 255 stands outside every loop never halts. */
  lemma {:induction false} WideAtTopNeverHalts(src: string, s: Vm.State, n: nat)
    requires Balanced(src) && WideAtTop(Optimised(src)) && JustLoaded(Assembled(Compiled(src)), s)
    ensures Vm.Run(s, n).status != Vm.Halted
  {
    StartsThere(src, s);
    CompiledIsRunnable(src);
    StagesAreSound(src);
    var lines := Compiled(src);
    var c := Optimised(src);
    FramedCompiled(src);
    hide *;
    FramedLies(c);
    var i := TopIndex(lines, 3, c);
    UpToTop(lines, i);
    FrameParts(c);
    WideNeverHalts(lines, s, Config(1, StartCpu(s), false), n, i);
  }

  lemma UpToTop(lines: seq<Line>, i: nat)
    requires 3 <= i < |lines| && forall j :: 0 <= j < 3 ==> lines[j] == PROLOGUE[j]
    requires forall j :: 3 <= j < i ==> Passable(lines, j, i)
    ensures Narrow(lines[..i]) && Closed(lines, i)
  {
    hide LabelAt;
    forall j | 0 <= j < i ensures NarrowLine(lines[..i][j]) && lines[j] != HALT_LINE
      && (Jump(lines[j]) ==> LabelAt(lines, lines[j].args[0].l) <= i)
    {
      if j >= 3 { assert Passable(lines, j, i); }
    }
  }

  /** For such a text the process agrees with the program on every outcome iff the program has none. */
  lemma {:induction false} WideAtTopExact(src: string, s: Vm.State)
    requires Balanced(src) && WideAtTop(Optimised(src)) && JustLoaded(Assembled(Compiled(src)), s)
    ensures Agrees(src, s) <==> forall w :: !Terminates(Program(src), StartWorld(s), w)
  {
    hide Compiled, Optimised, JustLoaded, Terminates, Vm.Run, FRESH_CELLS, WideAtTop, Known;
    forall w ensures !HaltsWith(s, w) {
      if HaltsWith(s, w) {
        var n: nat :| Shows(Vm.Run(s, n), w);
        WideAtTopNeverHalts(src, s, n);
      }
    }
  }

  // ----- a family of texts -----

  /** `k` plus signs. */
  function Pluses(k: nat): (s: string)
    ensures Balanced(s)
  {
    if k == 0 then
      assert ""[..0] == [];
      ""
    else
      OnePlus(Pluses(k - 1));
      ['+'] + Pluses(k - 1)
  }

  lemma OnePlus(s: string)
    requires Balanced(s)
    ensures Balanced(['+'] + s)
  {
    var t := ['+'] + s;
    DepthCons('+', s);
    forall j | 0 <= j <= |t| ensures Depth(t[..j]) >= 0 {
      if j > 0 {
        assert t[..j] == ['+'] + s[..j - 1];
        DepthCons('+', s[..j - 1]);
        assert Depth(s[..j - 1]) >= 0;
      }
    }
  }

  function Increments(k: nat): Prog { if k == 0 then End else Do(Inc, Increments(k - 1)) }

  lemma {:induction false} PlusesText(k: nat)
    ensures Text(Increments(k)) == Pluses(k) && Strip(Pluses(k)) == Pluses(k)
    ensures Loops(Increments(k)) == 0
  {
    if k > 0 {
      PlusesText(k - 1);
      assert Pluses(k)[1..] == Pluses(k - 1);
    }
  }

  lemma PlusesProgram(k: nat)
    ensures Program(Pluses(k)) == Increments(k)
  {
    hide Text, Strip, Depth, Dips, Program;
    PlusesText(k);
    var p := Program(Pluses(k));
    assert Text(p) + [] == Text(Increments(k)) + [];
    TextInjective(p, Increments(k), [], []);
  }

  /** A run of `k` plus signs after `m` pending ones becomes one instruction. */
  lemma {:induction false} PlusesFold(k: nat, m: nat, n: nat)
    ensures FoldTree(Tree(Increments(k), n), Pending(true, false, m)).0
         == if m + k == 0 then Done else Then(Ins(ADD, [At(A), Num(m + k)]), Done)
  {
    if k > 0 {
      PlusesFold(k - 1, m + 1, n);
      var line := Ins(ADD, [At(A), Num(1)]);
      assert Tree(Increments(k), n) == Then(line, Tree(Increments(k - 1), n));
      assert Next(Pending(true, false, m), line) == Pending(true, false, m + 1);
    } else if m > 0 {
      var flushed := FlushLines(Pending(true, false, m));
      assert flushed == [Ins(ADD, [At(A), Num(m)])] && flushed[1..] == [];
      assert Prepend(flushed, Done) == Then(flushed[0], Prepend(flushed[1..], Done));
    }
  }

  /** All that remains of `k` plus signs. */
  function PlusesCode(k: nat): Code { if k == 0 then Done else Then(Ins(ADD, [At(A), Num(k)]), Done) }

  lemma PlusesFolded(k: nat, n: nat)
    ensures FoldTree(Tree(Increments(k), n), IDLE).0 == PlusesCode(k)
  {
    if k > 0 {
      var line := Ins(ADD, [At(A), Num(1)]);
      assert Tree(Increments(k), n) == Then(line, Tree(Increments(k - 1), n));
      assert Next(IDLE, line) == Pending(true, false, 1);
      PlusesFold(k - 1, 1, n);
    }
  }

  lemma PlusesCompiled(k: nat)
    ensures Narrow(Compiled(Pluses(k))) <==> k <= 255
  {
    hide Tree, FoldTree, OptTree, Narrow, Framed, Program, Increments, Pluses;
    PlusesProgram(k);
    PlusesFolded(k, 0);
    OptStraight(PlusesCode(k));
    FrameNarrow(k);
  }

  lemma FrameNarrow(k: nat)
    ensures Narrow(Framed(PlusesCode(k))) <==> k <= 255
  {
    hide Framed;
    var c := PlusesCode(k);
    NarrowParts(PROLOGUE + Flatten(c), [HALT_LINE]);
    NarrowParts(PROLOGUE, Flatten(c));
    FramedIs(c);
    if k > 0 {
      assert Flatten(c) == [Ins(ADD, [At(A), Num(k)])];
      assert !NarrowOperand(Num(k)) <==> k > 255;
      assert Flatten(c)[0].args[1] == Num(k);
    }
  }

  /** A concrete failure: `k` plus signs are compiled correctly iff k is at most 255; from 256 on the
      process throws. */
  lemma {:induction false} PlusesExact(k: nat, s: Vm.State)
    requires JustLoaded(Assembled(Compiled(Pluses(k))), s)
    ensures Agrees(Pluses(k), s) <==> k <= 255
    ensures k > 255 ==> exists n :: Vm.Run(s, n).status == Vm.Fault(Vm.UnknownType)
  {
    hide Compiled, Narrow, Known, JustLoaded, Agrees, Vm.Run;
    PlusesText(k);
    PlusesProgram(k);
    PlusesCompiled(k);
    LoopFreeExact(Pluses(k), s);
    if k > 255 { var n := StraightThrows(Pluses(k), s); }
  }
}
