/** A numeral above 255 that does no harm: the text "[", a multiple of 256 plus signs, "]". Its loop is never
    entered. The jump over it lands one byte short of the label, on the last byte of the numeral; that byte is
    0, which is NOP. */
module WideLoops {
  import opened Bytes
  import opened Brainfuck
  import opened Source
  import opened Asm
  import opened Machine
  import opened CodeTrees
  import opened Translate
  import opened FoldRuns
  import opened LoopPass
  import opened LoopTrees
  import opened Isa
  import opened Assembler
  import opened Refinement
  import opened Compiler
  import opened EndToEnd
  import opened Limits
  import Vm

  function WideLoop(k: nat): Prog { Loop(Increments(k), End) }

  function WideLine(k: nat): Line { Ins(ADD, [At(A), Num(k)]) }

  function WideCode(k: nat): Code { While(0, Then(WideLine(k), Done), Done) }

  /** What it compiles to. */
  function WideText(k: nat): seq<Line> {
    [Skip(30000), Mark(Start), Ins(MOV, [Direct(A), Num(2)]),
     Mark(StartPar(0)), TEST_ZERO, Ins(JE, [Ref(ClosePar(0))]),
     WideLine(k),
     Mark(ClosePar(0)), TEST_ZERO, Ins(JNE, [Ref(StartPar(0))]),
     HALT_LINE]
  }

  lemma WideCompiled(k: nat)
    requires k > 0
    ensures Balanced(Text(WideLoop(k))) && Program(Text(WideLoop(k))) == WideLoop(k)
    ensures Compiled(Text(WideLoop(k))) == Framed(WideCode(k)) == WideText(k)
  {
    hide Compiled, Text, Program, Balanced, Framed;
    ProgramOfText(WideLoop(k));
    WideOptimised(k);
    FramedCompiled(Text(WideLoop(k)));
    FramedIs(WideCode(k));
    WideFlat(k);
  }

  lemma WideFlat(k: nat)
    ensures PROLOGUE + Flatten(WideCode(k)) + [HALT_LINE] == WideText(k)
    ensures PlainCode(WideCode(k)) && Distinct(WideCode(k))
  {
    assert Flatten(Then(WideLine(k), Done)) == [WideLine(k)];
    FlattenWhile(WideCode(k));
    assert Flatten(Done) == [];
  }

  lemma WideOptimised(k: nat)
    requires k > 0
    ensures OptTree(FoldTree(Tree(WideLoop(k), 0), IDLE).0) == WideCode(k)
  {
    hide FoldTree;
    var b := FoldTree(Tree(Increments(k), 1), IDLE);
    PlusesFolded(k, 1);
    FoldTreeIsFlushed(Tree(Increments(k), 1), IDLE);
    FoldLoop(Increments(k), 0);
    FoldLast(b.1);
    assert Prepend([], Done) == Done;
    NotReplaced(k);
    assert OptTree(Then(WideLine(k), Done)) == Then(WideLine(k), OptTree(Done));
  }

  lemma NotReplaced(k: nat)
    ensures Replacement(Flatten(Then(WideLine(k), Done))).None?
  {
    assert Flatten(Then(WideLine(k), Done)) == [WideLine(k)];
  }

  // ----- its run on bytes -----

  /** Everything about the program text that the run needs. */
  ghost predicate IsWide(lines: seq<Line>, k: nat) {
    && lines == WideText(k) && k > 0 && k % 256 == 0
    && Runnable(lines) && Known(lines)
    && LabelAt(lines, ClosePar(0)) == 7 && LabelAt(lines, StartPar(0)) == 3
  }

  lemma WideIs(k: nat)
    requires k > 0 && k % 256 == 0
    ensures IsWide(WideText(k), k)
  {
    hide Compiled, Framed, Runnable, Known, Text, Flatten, Placed, PlainCode, Distinct;
    var c := WideCode(k);
    WideCompiled(k);
    CompiledIsRunnable(Text(WideLoop(k)));
    WideFlat(k);
    FramedLies(c);
    LoopLabels(Framed(c), 3, 0, Then(WideLine(k), Done), Done);
    assert Width(Then(WideLine(k), Done)) == 1;
  }

  /** The first four lines lead to the jump over the loop. */
  lemma WideStarts(lines: seq<Line>, k: nat, cpu: Cpu)
    requires IsWide(lines, k) && cpu.cells[2] == 0
    ensures StaysBefore(lines, Config(1, cpu, false), 4, 6) && Narrow(lines[..6])
    ensures Machine.Run(lines, Config(1, cpu, false), 4) == Config(5, Tested(Begun(cpu)), false)
    ensures Tested(Begun(cpu)).zero
  {
    hide Exec, Plain, Known, Runnable, LabelAt;
    var k1 := Config(1, cpu, false);
    var k2 := Config(2, cpu, false);
    var k3 := Config(3, Begun(cpu), false);
    var k4 := Config(4, Begun(cpu), false);
    var k5 := Config(5, Tested(Begun(cpu)), false);
    MoveTwo(cpu);
    assert Machine.Step(lines, k1) == k2;
    assert Machine.Step(lines, k2) == k3 by { LineStep(lines, k2); }
    assert Machine.Step(lines, k3) == k4;
    assert Machine.Step(lines, k4) == k5 by { TestStep(lines, 4, Begun(cpu)); }
    hide Machine.Step;
    assert Machine.Run(lines, k4, 1) == Machine.Run(lines, k5, 0);
    assert Machine.Run(lines, k1, 4) == Machine.Run(lines, k2, 3) == Machine.Run(lines, k3, 2) == Machine.Run(lines, k4, 1);
    assert StaysBefore(lines, k4, 1, 6) && StaysBefore(lines, k3, 2, 6) && StaysBefore(lines, k2, 3, 6);
  }

  /** The jump goes to the byte in front of the label's code. */
  lemma WideJumps(lines: seq<Line>, k: nat, base: Vm.State, cpu: Cpu)
    requires IsWide(lines, k) && Refinement.Loaded(lines, base) && cpu.zero
    ensures base.proc.firstSector + 256 <= |base.ram| && Landed(lines, 7) > 256
    ensures base.proc.firstSector + Landed(lines, 7) < 0x1_0000
    ensures Vm.Step(ImageOf(lines, base, Config(5, cpu, false)))
         == Image(base, cpu, base.proc.firstSector + Landed(lines, 7) - 1, Vm.Running)
  {
    hide Assembled, Landed, AddressOf, LabelAt, Runnable, Vm.Dispatch, RawArgs, OpcodeOf, Arity, Vm.Step, Image, Vm.Jumped, FetchedLine;
    var k5 := Config(5, cpu, false);
    JumpIsShort(lines, k);
    LandedRange(lines, 7);
    LandedRange(lines, 6);
    LandedBehind(lines, k);
    JumpOpcode(lines, lines[5]);
    FetchLine(lines, base, k5);
    var next: Word := base.proc.firstSector + Landed(lines, 6);
    var s := Image(base, cpu, next, Vm.Running);
    ImageFlags(base, cpu, next);
    JumpDispatch(s, lines[5], cpu, AddressOf(lines, ClosePar(0)));
    ImageJump(base, cpu, next, AddressOf(lines, ClosePar(0)));
    Wrapped(base.proc.firstSector + Landed(lines, 7) - 1);
  }

  lemma Wrapped(w: nat)
    requires w < 0x1_0000
    ensures Wrap16(w) == w
  {
  }

  lemma JumpIsShort(lines: seq<Line>, k: nat)
    requires IsWide(lines, k) && |Assembled(lines)| < 0x1_0000
    ensures AddressOf(lines, ClosePar(0)) == Landed(lines, 7) - 1
  {
    hide Assembled, Landed, Planned, Known, Runnable, LabelAt;
    LayoutDrift(lines, 7);
    LandedInside(lines, 7);
    OneWideNumeral(lines, k);
  }

  lemma OneWideNumeral(lines: seq<Line>, k: nat)
    requires IsWide(lines, k)
    ensures WideCount(lines[..7]) == 1
  {
    assert lines[..7] == lines[..6] + [WideLine(k)];
    assert Narrow(lines[..6]);
    NarrowHasNoWide(lines[..6]);
    WideCountAdd(lines[..6], WideLine(k));
    assert [At(A), Num(k)][1..] == [Num(k)] && [Num(k)][1..] == [];
    assert WideArgs([Num(k)]) == 1;
  }

  lemma {:induction false} WideCountAdd(lines: seq<Line>, line: Line)
    ensures WideCount(lines + [line]) == WideCount(lines) + (if line.Ins? then WideArgs(line.args) else 0)
  {
    if lines == [] {
      assert lines + [line] == [line] && [line][1..] == [];
    } else {
      assert (lines + [line])[1..] == lines[1..] + [line];
      WideCountAdd(lines[1..], line);
    }
  }

  /** The bytes of the wide line end with the low byte of the numeral. */
  lemma WideBytes(lines: seq<Line>, k: nat)
    requires k > 255 && k % 256 == 0
    ensures OpcodeOf(ADD, 2).Some?
    ensures var bytes := Encode(lines, WideLine(k)); |bytes| > 1 && bytes[|bytes| - 1] == 0
  {
    var args := [At(A), Num(k)];
    assert args[1..] == [Num(k)] && [Num(k)][1..] == [];
    assert EncodeArgs(lines, [Num(k)]) == EncodeArg(lines, Num(k)) + EncodeArgs(lines, []);
    assert EncodeArgs(lines, args) == EncodeArg(lines, At(A)) + EncodeArgs(lines, [Num(k)]);
    LowIsZero(k);
  }

  lemma LowIsZero(k: nat)
    requires k % 256 == 0
    ensures Low(Wrap16(k)) == 0
  {
    SplitWrapped(k);
  }

  lemma LandedBehind(lines: seq<Line>, k: nat)
    requires IsWide(lines, k)
    ensures Landed(lines, 7) > Landed(lines, 6)
  {
    LandedNext(lines, 6);
    WideBytes(lines, k);
  }

  /** The byte in front of the label is 0, so one NOP leads to the label. */
  lemma WideSlips(lines: seq<Line>, k: nat, base: Vm.State, cpu: Cpu)
    requires Runnable(lines) && Known(lines) && 7 < |lines| && lines[6] == WideLine(k) && k > 255 && k % 256 == 0
    requires Refinement.Loaded(lines, base)
    requires |base.regs| == 5 && base.proc.firstSector + 256 <= |base.ram|
    requires base.proc.firstSector + Landed(lines, 7) < 0x1_0000 && Landed(lines, 7) > 0
    ensures Vm.Step(Image(base, cpu, base.proc.firstSector + Landed(lines, 7) - 1, Vm.Running))
         == ImageOf(lines, base, Config(7, cpu, false))
  {
    hide *;
    var f := base.proc.firstSector;
    var at: Word := f + Landed(lines, 7) - 1;
    var s := Image(base, cpu, at, Vm.Running);
    LastByte(lines, k, base, cpu, at);
    FetchNop(s.ram, at);
    LiveHere(lines, base, cpu, at);
    NopMoves(base, cpu, at, at + 1);
    StepFetched(s, Fetched(0x00, []), at + 1);
    WideImage(lines, base, cpu);
  }

  /** That byte. */
  lemma LastByte(lines: seq<Line>, k: nat, base: Vm.State, cpu: Cpu, at: Word)
    requires Runnable(lines) && Known(lines) && 7 < |lines| && lines[6] == WideLine(k) && k > 255 && k % 256 == 0
    requires Refinement.Loaded(lines, base) && base.proc.firstSector + 256 <= |base.ram|
    requires at == base.proc.firstSector + Landed(lines, 7) - 1
    ensures var ram := Image(base, cpu, at, Vm.Running).ram; at < |ram| && ram[at] == 0
  {
    hide *;
    LoadedFits(lines, base);
    WideBytes(lines, k);
    LineInMemory(lines, base, cpu, at, 6);
    LandedNext(lines, 6);
    var bytes := Encode(lines, lines[6]);
    HoldsByte(Image(base, cpu, at, Vm.Running).ram, base.proc.firstSector + Landed(lines, 6), bytes, |bytes| - 1);
  }

  lemma LiveHere(lines: seq<Line>, base: Vm.State, cpu: Cpu, at: Word)
    requires Runnable(lines) && 7 < |lines| && Refinement.Loaded(lines, base) && base.proc.firstSector + 256 <= |base.ram|
    requires Known(lines) && at + 1 == base.proc.firstSector + Landed(lines, 7)
    ensures Vm.Live(Image(base, cpu, at, Vm.Running))
  {
    LandedRange(lines, 7);
    hide Landed, Assembled, Runnable;
  }

  lemma NopMoves(base: Vm.State, cpu: Cpu, at: Word, next: Word)
    requires |base.regs| == 5 && base.proc.firstSector + 256 <= |base.ram|
    ensures Arity(0x00) == 0
    ensures var s := Image(base, cpu, at, Vm.Running);
      && s.proc.pc == at
      && Vm.Dispatch(s.(proc := s.proc.(pc := next)), Fetched(0x00, [])) == Image(base, cpu, next, Vm.Running)
  {
  }

  lemma WideImage(lines: seq<Line>, base: Vm.State, cpu: Cpu)
    requires Known(lines) && 7 < |lines| && |base.regs| == 5 && base.proc.firstSector + 256 <= |base.ram|
    requires base.proc.firstSector + Landed(lines, 7) < 0x1_0000
    ensures Image(base, cpu, base.proc.firstSector + Landed(lines, 7), Vm.Running) == ImageOf(lines, base, Config(7, cpu, false))
  {
    hide Landed, Image;
  }

  /** From the label on, the program tests the cell again, does not jump back, and halts. */
  lemma WideEnds(lines: seq<Line>, k: nat, base: Vm.State, cpu: Cpu)
    requires IsWide(lines, k) && Refinement.Loaded(lines, base) && base.proc.firstSector + 256 <= |base.ram|
    requires cpu == Tested(cpu) && cpu.zero
    ensures var s := ImageOf(lines, base, Config(7, cpu, false));
      Vm.Step(Vm.Step(Vm.Step(s))) == ImageOf(lines, base, Config(10, cpu, true))
  {
    hide *;
    var (k7, k8, k9, k10) := (Config(7, cpu, false), Config(8, cpu, false), Config(9, cpu, false), Config(10, cpu, false));
    EndOfWide(lines, k, cpu);
    ExecTest(cpu);
    MarkStep(lines, base, k7);
    PlainLineStep(lines, base, k8);
    JumpNotTaken(lines, base, k9);
    HaltStep(lines, base, k10);
  }

  lemma EndOfWide(lines: seq<Line>, k: nat, cpu: Cpu)
    requires IsWide(lines, k) && cpu.zero
    ensures |lines| == 11 && Runnable(lines) && lines[7].Mark? && lines[8] == TEST_ZERO && lines[10] == HALT_LINE
    ensures Jump(lines[9]) && !Taken(lines[9], cpu)
  {
  }

  lemma ExecTest(cpu: Cpu)
    ensures Plain(TEST_ZERO) && NarrowLine(TEST_ZERO) && Exec(TEST_ZERO, cpu) == Tested(cpu)
  {
  }

  // ----- the result -----

  lemma WideHalts(k: nat, s: Vm.State) returns (n: nat)
    requires k > 0 && k % 256 == 0 && Balanced(Text(WideLoop(k)))
    requires JustLoaded(Assembled(Compiled(Text(WideLoop(k)))), s)
    ensures Shows(Vm.Run(s, n), StartWorld(s))
  {
    hide *;
    var lines := WideText(k);
    WideCompiled(k);
    WideIs(k);
    WideLineIs(lines, k);
    StartsThere(Text(WideLoop(k)), s);
    LoadedFits(lines, s);
    var cpu := StartCpu(s);
    var cpu5 := Tested(Begun(cpu));
    CoreOfStart(s);
    WideStarts(lines, k, cpu);
    FirstInside(lines, cpu);
    n := LinesFollowBytes(lines, s, Config(1, cpu, false), 4, 6);
    WideJumps(lines, k, s, cpu5);
    WideSlips(lines, k, s, cpu5);
    TestedTwice(Begun(cpu));
    WideEnds(lines, k, s, cpu5);
    FiveMore(s, n);
    n := n + 5;
    ObservedImage(lines, s, Config(10, cpu5, true));
    HaltedImage(lines, s, Config(10, cpu5, true));
    ShowsIs(Vm.Run(s, n), StartWorld(s));
  }

  lemma WideLineIs(lines: seq<Line>, k: nat)
    requires IsWide(lines, k)
    ensures Runnable(lines) && Known(lines) && |lines| == 11 && lines[6] == WideLine(k) && k > 255
  {
  }

  lemma CoreOfStart(s: Vm.State)
    requires |s.regs| == 5
    ensures Core(Tested(Begun(StartCpu(s)))) == StartWorld(s)
    ensures StartCpu(s).cells[2] == 0
  {
  }

  lemma ShowsIs(t: Vm.State, w: World)
    requires t.status == Vm.Halted && |t.regs| > 0 && t.proc.firstSector + 256 <= |t.ram| && Observed(t) == w
    ensures Shows(t, w)
  {
  }

  lemma FiveMore(s: Vm.State, n: nat)
    ensures Vm.Run(s, n + 5) == Vm.Step(Vm.Step(Vm.Step(Vm.Step(Vm.Step(Vm.Run(s, n))))))
  {
    hide Vm.Step, Vm.Run;
    Vm.RunLast(s, n);
    Vm.RunLast(s, n + 1);
    Vm.RunLast(s, n + 2);
    Vm.RunLast(s, n + 3);
    Vm.RunLast(s, n + 4);
  }

  /** So the condition on numerals is not necessary for texts with loops: these have a numeral above 255 in
      their assembly, and are compiled correctly. */
  lemma NarrowIsNotNecessary(k: nat, s: Vm.State)
    requires k > 0 && k % 256 == 0 && Balanced(Text(WideLoop(k)))
    requires JustLoaded(Assembled(Compiled(Text(WideLoop(k)))), s)
    ensures !Narrow(Compiled(Text(WideLoop(k)))) && Agrees(Text(WideLoop(k)), s)
  {
    hide *;
    WideCompiled(k);
    WideIsNotNarrow(k);
    var n := WideHalts(k, s);
    StartsAtZero(s);
    SkipsAtOnce(k, StartWorld(s));
    FirstHalt(WideLoop(k), s, n, StartWorld(s));
    AgreesIs(Text(WideLoop(k)), s);
  }

  /** A process and a program that have an outcome in common agree on all. */
  lemma FirstHalt(p: Prog, s: Vm.State, n: nat, w: World)
    requires Shows(Vm.Run(s, n), w) && Terminates(p, StartWorld(s), w)
    ensures forall v :: HaltsWith(s, v) <==> Terminates(p, StartWorld(s), v)
  {
    hide Vm.Run, Terminates, FRESH_CELLS, Observed;
    forall v ensures HaltsWith(s, v) <==> Terminates(p, StartWorld(s), v) {
      if HaltsWith(s, v) {
        var m: nat :| Shows(Vm.Run(s, m), v);
        if m <= n { Vm.RunFrozen(s, m, n); } else { Vm.RunFrozen(s, n, m); }
      }
      if Terminates(p, StartWorld(s), v) { TerminatesOnce(p, StartWorld(s), v, w); }
    }
  }

  lemma AgreesIs(src: string, s: Vm.State)
    requires Balanced(src) && forall v :: HaltsWith(s, v) <==> Terminates(Program(src), StartWorld(s), v)
    ensures Agrees(src, s)
  {
    hide HaltsWith, Terminates, Program, Balanced, StartWorld;
  }

  lemma WideIsNotNarrow(k: nat)
    requires k > 255
    ensures !Narrow(WideText(k))
  {
    assert WideText(k)[6] == WideLine(k);
    assert !NarrowOperand(WideLine(k).args[1]);
  }

  lemma SkipsAtOnce(k: nat, w: World)
    requires Here(w) == 0
    ensures Terminates(WideLoop(k), w, w)
  {
    TerminatesNow(WideLoop(k), w, w);
  }

  lemma StartsAtZero(s: Vm.State)
    ensures Here(StartWorld(s)) == 0
  {
  }
}
