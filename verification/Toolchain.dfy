/** What `main` does with a Brainfuck text: compile it, load it into a new machine, run it. */
module Toolchain {
  import opened Bytes
  import opened Brainfuck
  import opened Source
  import opened Asm
  import opened Assembler
  import opened Compiler
  import opened EndToEnd
  import opened FreeList
  import opened Loader
  import opened Machinery
  import Vm

  datatype Outcome =
    | UnmatchedClosing | UnmatchedOpening  // what the compiler throws
    | DoesNotFit                           // what the loader throws
    | Ended(world: World)                  // the process has halted
    | Threw(error: Vm.Error)
    | StillRunning

  /** The machine in front of the first instruction of `bytes`. */
  function Fresh(bytes: seq<Byte>, numbers: seq<int>): Vm.State
    requires Footprint(bytes) <= MANAGED
  {
    var zeros: seq<Byte> := seq(RAM_SIZE, _ => 0);
    Vm.State(LoadedRam(zeros, 0, bytes), [0, 0, 0, 0, 0], false, false, LoadedProc(zeros, 0, bytes), numbers, [], Vm.Running)
  }

  lemma FreshIsJustLoaded(bytes: seq<Byte>, numbers: seq<int>)
    requires Footprint(bytes) <= MANAGED && |bytes| >= 2
    ensures JustLoaded(bytes, Fresh(bytes, numbers))
    ensures StartWorld(Fresh(bytes, numbers)) == World(FRESH_CELLS, 2, numbers, [])
  {
    LoaderGivesJustLoaded(Fresh(bytes, numbers), seq(RAM_SIZE, _ => 0), 0, bytes);
  }

  /** A number of rounds after which the process of `bytes` has halted, if it ever does. */
  ghost function Rounds(bytes: seq<Byte>, numbers: seq<int>): (n: nat)
    requires Footprint(bytes) <= MANAGED
    ensures (exists m: nat :: Vm.Run(Fresh(bytes, numbers), m).status.Halted?) ==>
      Vm.Run(Fresh(bytes, numbers), n).status.Halted?
  {
    if m: nat :| Vm.Run(Fresh(bytes, numbers), m).status.Halted? then m else 0
  }

  /** What there is to see of a machine whose process lies at address 0. */
  function OutcomeOf(s: Vm.State): Outcome
    requires |s.ram| >= 256 && |s.regs| > 0
  {
    match s.status
    case Running => StillRunning
    case Fault(e) => Threw(e)
    case Halted => Ended(World(s.ram[..256], s.regs[0], s.input, s.output))
  }

  /** `r` is what the program `src` does: nothing is thrown; if the process has halted, the program ends
      with what the process shows; if the program ends, that is found after enough rounds. */
  ghost predicate Right(src: string, numbers: seq<int>, fuel: nat, r: Outcome)
    requires Balanced(src) && Footprint(Assembled(Compiled(src))) <= MANAGED
  {
    var start := World(FRESH_CELLS, 2, numbers, []);
    && !r.Threw?
    && (r.Ended? ==> Terminates(Program(src), start, r.world))
    && forall w :: Terminates(Program(src), start, w) && fuel >= Rounds(Assembled(Compiled(src)), numbers) ==> r == Ended(w)
  }

  lemma OutcomeIsRight(src: string, numbers: seq<int>, fuel: nat)
    requires Balanced(src) && Narrow(Compiled(src)) && Footprint(Assembled(Compiled(src))) <= MANAGED
    ensures var t := Vm.Run(Fresh(Assembled(Compiled(src)), numbers), fuel);
      !t.status.Fault? && (|t.ram| >= 256 && |t.regs| > 0 ==> Right(src, numbers, fuel, OutcomeOf(t)))
  {
    var bytes := Assembled(Compiled(src));
    CompiledBytes(src);
    FreshIsJustLoaded(bytes, numbers);
    FreshIsAtZero(bytes, numbers);
    var s := Fresh(bytes, numbers);
    hide *;
    ProcessIsContained(src, s, fuel);
    var t := Vm.Run(s, fuel);
    if |t.ram| >= 256 && |t.regs| > 0 {
      if t.status.Halted? { HaltedIsRight(src, s, fuel); }
      forall w | Terminates(Program(src), StartWorld(s), w) && fuel >= Rounds(bytes, numbers)
        ensures OutcomeOf(t) == Ended(w)
      {
        EndIsFound(src, s, Rounds(bytes, numbers), fuel, w);
      }
      RightIs(src, numbers, fuel, OutcomeOf(t), StartWorld(s));
    }
  }

  lemma RightIs(src: string, numbers: seq<int>, fuel: nat, r: Outcome, start: World)
    requires Balanced(src) && Footprint(Assembled(Compiled(src))) <= MANAGED
    requires start == World(FRESH_CELLS, 2, numbers, [])
    requires !r.Threw? && (r.Ended? ==> Terminates(Program(src), start, r.world))
    requires forall w :: Terminates(Program(src), start, w) && fuel >= Rounds(Assembled(Compiled(src)), numbers) ==> r == Ended(w)
    ensures Right(src, numbers, fuel, r)
  {
  }

  lemma HaltedIsRight(src: string, s: Vm.State, fuel: nat)
    requires Balanced(src) && Narrow(Compiled(src)) && JustLoaded(Assembled(Compiled(src)), s)
    requires s.proc.firstSector == 0 && Vm.Run(s, fuel).status.Halted?
    ensures var t := Vm.Run(s, fuel);
      |t.ram| >= 256 && |t.regs| > 0 ==>
        OutcomeOf(t).Ended? && Terminates(Program(src), StartWorld(s), OutcomeOf(t).world)
  {
    hide Compiled, Assembled, Narrow, Known, Vm.Run, Terminates, FRESH_CELLS, JustLoaded;
    ProcessIsContained(src, s, fuel);
    var t := Vm.Run(s, fuel);
    if |t.ram| >= 256 && |t.regs| > 0 {
      assert Shows(t, Observed(t));
      CompilerIsCorrect(src, s, Observed(t));
    }
  }

  lemma EndIsFound(src: string, s: Vm.State, n: nat, fuel: nat, w: World)
    requires Balanced(src) && Narrow(Compiled(src)) && JustLoaded(Assembled(Compiled(src)), s)
    requires s.proc.firstSector == 0 && Terminates(Program(src), StartWorld(s), w)
    requires n <= fuel && ((exists m: nat :: Vm.Run(s, m).status.Halted?) ==> Vm.Run(s, n).status.Halted?)
    ensures var t := Vm.Run(s, fuel); |t.ram| >= 256 && |t.regs| > 0 ==> OutcomeOf(t) == Ended(w)
  {
    hide Compiled, Assembled, Narrow, Known, Vm.Run, Terminates, FRESH_CELLS, JustLoaded;
    CompilerIsCorrect(src, s, w);
    var m: nat :| Shows(Vm.Run(s, m), w);
    HaltedForGood(s, n, fuel, m);
    ProcessIsContained(src, s, fuel);
  }

  lemma FreshIsAtZero(bytes: seq<Byte>, numbers: seq<int>)
    requires Footprint(bytes) <= MANAGED
    ensures Fresh(bytes, numbers).proc.firstSector == 0
  {
  }

  /** All halted states of a run are the same. */
  lemma HaltedForGood(s: Vm.State, n: nat, fuel: nat, m: nat)
    requires Vm.Run(s, n).status.Halted? && Vm.Run(s, m).status.Halted? && n <= fuel
    ensures Vm.Run(s, fuel) == Vm.Run(s, m)
  {
    hide Vm.Run;
    Vm.RunFrozen(s, n, fuel);
    if m <= n { Vm.RunFrozen(s, m, n); } else { Vm.RunFrozen(s, n, m); }
  }

  /** From text to result. The compiler throws iff the brackets do not match, and the loader iff the program
      does not fit; without numerals above 255 the result is that of the program. */
  method CompileAndRun(src: string, numbers: seq<int>, fuel: nat) returns (r: Outcome)
    ensures r.UnmatchedClosing? <==> Dips(src)
    ensures r.UnmatchedOpening? <==> !Dips(src) && Depth(src) > 0
    ensures Balanced(src) ==> (r.DoesNotFit? <==> Footprint(Assembled(Compiled(src))) > MANAGED)
    ensures Balanced(src) && Narrow(Compiled(src)) && !r.DoesNotFit? ==> Right(src, numbers, fuel, r)
  {
    hide Compiled, Assembled, Narrow, Known, Take, Canonical, LoadedRam, LoadedProc, EntryOf, Vm.Run, Terminates, FRESH_CELLS, Right,
      Balanced, Dips, Depth;
    var binary := Compile(src);
    if binary.UnmatchedClose? {
      return UnmatchedClosing;
    }
    if binary.UnmatchedOpen? {
      return UnmatchedOpening;
    }
    var bytes := binary.codes;
    var vm := new VM(numbers);
    FirstPlace(Footprint(bytes));
    FreshList();
    var process := vm.LoadProgramInRam(bytes);
    if process == null {
      return DoesNotFit;
    }
    ghost var start := vm.State(process, Vm.Running);
    assert start == Fresh(bytes, numbers);
    var status := vm.Exec(process, fuel);
    if Narrow(Compiled(src)) { OutcomeIsRight(src, numbers, fuel); }
    match status {
      case Running => r := StillRunning;
      case Fault(e) => r := Threw(e);
      case Halted => r := Ended(World(vm.RAM[..256], vm.registers[0], vm.input, vm.output));
    }
  }

  lemma FreshList()
    ensures Canonical([Range(0, MANAGED)])
  {
  }
}
