/** From Brainfuck text to the running byte machine. */
module EndToEnd {
  import opened Bytes
  import opened Brainfuck
  import opened Source
  import opened Asm
  import opened Machine
  import opened LoopTrees
  import opened Assembler
  import opened Refinement
  import opened Compiler
  import opened FreeList
  import opened Loader
  import Vm

  /** A process of the machine that has just been loaded with `bytes` and has not run yet; registers,
      flags and the rest of memory are arbitrary. */
  ghost predicate JustLoaded(bytes: seq<Byte>, s: Vm.State) {
    var f := s.proc.firstSector;
    && |s.ram| == RAM_SIZE && |s.regs| == 5 && s.status == Vm.Running
    && f + Footprint(bytes) <= MANAGED && |bytes| >= 2
    && s.ram[f..f + |bytes|] == bytes
    && s.proc == Layout(f, |bytes|, EntryOf(s.ram, f))
  }

  /** What the loader leaves is such a process. */
  lemma {:induction false} LoaderGivesJustLoaded(s: Vm.State, ram: seq<Byte>, f: Word, bytes: seq<Byte>)
    requires |ram| == RAM_SIZE && f + Footprint(bytes) <= MANAGED && |bytes| >= 2
    requires s.ram == LoadedRam(ram, f, bytes) && |s.regs| == 5 && s.status == Vm.Running
    requires s.proc == LoadedProc(ram, f, bytes)
    ensures JustLoaded(bytes, s)
  {
    EntryInCode(ram, f, bytes);
    LoadedSlice(ram, f, bytes);
    hide LoadedRam, WithCode, EntryOf;
  }

  lemma LoadedSlice(ram: seq<Byte>, f: Word, bytes: seq<Byte>)
    requires f + |bytes| + 3 <= |ram|
    ensures LoadedRam(ram, f, bytes)[f..f + |bytes|] == bytes
  {
  }

  /** What can be observed of a process: its 256 cells, A, and the streams. */
  function Observed(s: Vm.State): World
    requires s.proc.firstSector + 256 <= |s.ram| && |s.regs| > 0
  {
    var f := s.proc.firstSector;
    World(s.ram[f..f + 256], s.regs[0], s.input, s.output)
  }

  /** The tape of a fresh process: the entry point 30002 in its first two cells, then zeros. */
  const FRESH_CELLS: Ring := [0x75, 0x32] + Zeros(254)

  /** The world in which a compiled program starts: the data pointer is on cell 2. */
  function StartWorld(s: Vm.State): World { World(FRESH_CELLS, 2, s.input, s.output) }

  // ----- the start -----

  lemma CompiledBytes(src: string)
    requires Balanced(src)
    ensures var lines := Compiled(src);
      && Known(lines) && |Assembled(lines)| >= 30002
      && Landed(lines, 1) == 30002 && Assembled(lines)[..256] == FRESH_CELLS
  {
    hide Compiled, Runnable, LabelAt, EncodeAll;
    CompiledIsRunnable(src);
    var lines := Compiled(src);
    CompiledHead(src);
    HeadBytes(lines);
  }

  lemma CompiledHead(src: string)
    requires Balanced(src)
    ensures |Compiled(src)| >= 2 && Compiled(src)[0] == Skip(30000) && Compiled(src)[1] == Mark(Start)
  {
    FrameParts(Optimised(src));
  }

  lemma HeadBytes(lines: seq<Line>)
    requires |lines| >= 2 && lines[0] == Skip(30000) && LabelAt(lines, Start) == 1 && Known(lines)
    ensures |Assembled(lines)| >= 30002 && Landed(lines, 1) == 30002 && Assembled(lines)[..256] == FRESH_CELLS
  {
    hide *;
    HeadLands(lines);
    StartIsEntry(lines);
    HeaderFirst(lines);
    LandedInside(lines, 1);
    LineHolds(lines, 0);
    EncodeShape(lines, lines[0]);
    forall i | 2 <= i < 256 ensures Assembled(lines)[i] == 0 {
      HoldsByte(Assembled(lines), 2, Encode(lines, lines[0]), i - 2);
    }
    FreshIs(Assembled(lines)[..256]);
  }

  /** The code begins behind the header and the reservation. */
  lemma HeadLands(lines: seq<Line>)
    requires |lines| >= 2 && lines[0] == Skip(30000) && Known(lines)
    ensures Landed(lines, 0) == 2 && Landed(lines, 1) == 30002
  {
    hide Encode, EncodeAll;
    LandedNext(lines, 0);
    EncodeShape(lines, lines[0]);
    assert lines[..0] == [];
    EncodeNothing(lines, [], []);
    assert [] + EncodeAll(lines, []) == EncodeAll(lines, []);
  }

  lemma StartIsEntry(lines: seq<Line>)
    requires |lines| >= 2 && lines[0] == Skip(30000) && LabelAt(lines, Start) == 1 && Known(lines)
    ensures Header(lines) == [0x75, 0x32]
  {
    hide Encode, EncodeAll, Landed, LabelAt;
    HeadLands(lines);
    LayoutDrift(lines, 1);
    assert lines[..1] == [Skip(30000)] && lines[..1][1..] == [];
    assert WideCount(lines[..1]) == 0;
  }

  lemma HeaderFirst(lines: seq<Line>)
    requires Known(lines) && |Header(lines)| == 2
    ensures |Assembled(lines)| >= 2 && Assembled(lines)[0] == Header(lines)[0] && Assembled(lines)[1] == Header(lines)[1]
  {
    hide EncodeAll, Header;
  }

  lemma FreshIs(cells: seq<Byte>)
    requires |cells| == 256 && cells[0] == 0x75 && cells[1] == 0x32 && forall i :: 2 <= i < 256 ==> cells[i] == 0
    ensures cells == FRESH_CELLS
  {
  }

  /** The labelled machine's view of the fresh process. */
  function StartCpu(s: Vm.State): Cpu
    requires |s.regs| == 5
  {
    Cpu(FRESH_CELLS, s.regs[0], s.regs[1], s.regs[2], s.regs[3], s.zero, s.sign, s.input, s.output)
  }

  lemma StartsThere(src: string, s: Vm.State)
    requires Balanced(src) && JustLoaded(Assembled(Compiled(src)), s)
    ensures Refinement.Loaded(Compiled(src), s) && 2 <= |Compiled(src)|
    ensures s == ImageOf(Compiled(src), s, Config(1, StartCpu(s), false))
  {
    hide Compiled, FRESH_CELLS, Known, LabelAt;
    CompiledBytes(src);
    CompiledHead(src);
    StartImage(Compiled(src), s);
  }

  lemma StartImage(lines: seq<Line>, s: Vm.State)
    requires 2 <= |lines| && Known(lines) && JustLoaded(Assembled(lines), s)
    requires |Assembled(lines)| >= 30002 && Landed(lines, 1) == 30002 && Assembled(lines)[..256] == FRESH_CELLS
    ensures Refinement.Loaded(lines, s)
    ensures s == ImageOf(lines, s, Config(1, StartCpu(s), false))
  {
    hide Assembled, Landed, FRESH_CELLS, Known;
    var bytes := Assembled(lines);
    var f := s.proc.firstSector;
    LayoutExact(f, |bytes|, EntryOf(s.ram, f));
    CodeInMemory(s.ram, f, bytes);
    EntryPoint(s, f, bytes);
    assert s.proc.pc == f + 30002;
    hide Layout, EntryOf, Footprint;
    assert s.regs == [s.regs[0], s.regs[1], s.regs[2], s.regs[3], s.regs[4]];
  }

  lemma CodeInMemory(ram: seq<Byte>, f: nat, bytes: seq<Byte>)
    requires f + |bytes| <= |ram| && |bytes| >= 256 && ram[f..f + |bytes|] == bytes && bytes[..256] == FRESH_CELLS
    ensures ram[f + 256..f + |bytes|] == bytes[256..]
    ensures ram == ram[..f] + FRESH_CELLS + ram[f + 256..]
  {
    hide FRESH_CELLS;
    assert ram[f..f + |bytes|][256..] == ram[f + 256..f + |bytes|];
    assert ram[f..f + |bytes|][..256] == ram[f..f + 256];
    assert ram == ram[..f] + ram[f..f + 256] + ram[f + 256..];
  }

  lemma EntryPoint(s: Vm.State, f: nat, bytes: seq<Byte>)
    requires f + |bytes| <= |s.ram| && |bytes| >= 256 && s.ram[f..f + |bytes|] == bytes && bytes[..256] == FRESH_CELLS
    ensures f + 1 < |s.ram| && EntryOf(s.ram, f) == 30002
  {
    assert s.ram[f] == bytes[0] == bytes[..256][0];
    assert s.ram[f + 1] == bytes[1] == bytes[..256][1];
  }

  lemma ObservedImage(lines: seq<Line>, base: Vm.State, k: Config)
    requires Known(lines) && k.pc <= |lines|
    requires |base.regs| == 5 && base.proc.firstSector + 256 <= |base.ram|
    ensures var t := ImageOf(lines, base, k);
      && t.proc.firstSector + 256 <= |t.ram| && |t.regs| > 0 && Observed(t) == Core(k.cpu)
  {
    hide Landed;
    var f := base.proc.firstSector;
    var t := ImageOf(lines, base, k);
    assert t.ram[f..f + 256] == k.cpu.cells;
  }

  // ----- the theorems -----

  /** Where the Brainfuck program ends, the process halts, showing the same tape, A, input and output. */
  lemma {:induction false} ProcessFollows(src: string, s: Vm.State, fuel: nat) returns (n: nat)
    requires Balanced(src) && Narrow(Compiled(src)) && JustLoaded(Assembled(Compiled(src)), s)
    requires Eval(fuel, Program(src), StartWorld(s)).Some?
    ensures var t := Vm.Run(s, n);
      && t.status == Vm.Halted && |t.regs| > 0 && t.proc.firstSector + 256 <= |t.ram|
      && Observed(t) == Eval(fuel, Program(src), StartWorld(s)).value
  {
    hide Compiled, Optimised, Narrow, Known, Assembled, Runnable, Countdowns, Machine.Run, Vm.Run, JustLoaded, FRESH_CELLS;
    StartsThere(src, s);
    CompiledIsRunnable(src);
    StagesAreSound(src);
    NarrowIsCountdown(src);
    var lines := Compiled(src);
    var cpu := StartCpu(s);
    OptimisedFollows(src, Begun(cpu), fuel);
    FramedCompiled(src);
    var m := FramedRuns(Optimised(src), cpu, fuel);
    AlwaysBeforeEnd(lines, Config(1, cpu, false), m);
    assert lines[..|lines|] == lines;
    n := LinesFollowBytes(lines, s, Config(1, cpu, false), m, |lines|);
    ObservedImage(lines, s, Machine.Run(lines, Config(1, cpu, false), m));
    HaltedImage(lines, s, Machine.Run(lines, Config(1, cpu, false), m));
  }

  lemma FramedCompiled(src: string)
    requires Balanced(src)
    ensures Compiled(src) == Framed(Optimised(src))
  {
  }

  lemma HaltedImage(lines: seq<Line>, base: Vm.State, k: Config)
    requires Known(lines) && k.pc <= |lines|
    requires |base.regs| == 5 && base.proc.firstSector + 256 <= |base.ram|
    ensures ImageOf(lines, base, k).status == (if k.halted then Vm.Halted else Vm.Running)
    ensures ImageOf(lines, base, k).ram[..base.proc.firstSector] == base.ram[..base.proc.firstSector]
    ensures ImageOf(lines, base, k).ram[base.proc.firstSector + 256..] == base.ram[base.proc.firstSector + 256..]
    ensures ImageOf(lines, base, k).proc.(pc := 0) == base.proc.(pc := 0)
  {
    hide Landed;
  }

  /** Where the process halts, the Brainfuck program ends, showing the same. */
  lemma {:induction false} ProcessHalts(src: string, s: Vm.State, n: nat) returns (fuel: nat)
    requires Balanced(src) && Narrow(Compiled(src)) && JustLoaded(Assembled(Compiled(src)), s)
    requires Vm.Run(s, n).status == Vm.Halted
    ensures var t := Vm.Run(s, n);
      && |t.regs| > 0 && t.proc.firstSector + 256 <= |t.ram|
      && Eval(fuel, Program(src), StartWorld(s)) == Some(Observed(t))
  {
    hide Compiled, Optimised, Narrow, Known, Assembled, Runnable, Countdowns, Machine.Run, Vm.Run, JustLoaded, FRESH_CELLS;
    StartsThere(src, s);
    CompiledIsRunnable(src);
    StagesAreSound(src);
    NarrowIsCountdown(src);
    var lines := Compiled(src);
    var cpu := StartCpu(s);
    var k0 := Config(1, cpu, false);
    var m := BytesFollowLines(lines, s, k0, n);
    ObservedImage(lines, s, Machine.Run(lines, k0, m));
    HaltedImage(lines, s, Machine.Run(lines, k0, m));
    FramedCompiled(src);
    FramedHalts(Optimised(src), cpu, m);
    fuel := OptimisedHalts(src, Begun(cpu), m);
  }

  /** The process halts showing `w`. */
  ghost predicate HaltsWith(s: Vm.State, w: World) {
    exists n: nat :: Shows(Vm.Run(s, n), w)
  }

  ghost predicate Shows(t: Vm.State, w: World) {
    t.status == Vm.Halted && |t.regs| > 0 && t.proc.firstSector + 256 <= |t.ram| && Observed(t) == w
  }

  /** Compilation is correct end to end: for every balanced text whose assembly has no numeral above
      255, a loaded process halts with a given observation iff the Brainfuck program ends with it.
      So one terminates iff the other does, and they agree on tape, pointer, input and output. */
  lemma {:induction false} CompilerIsCorrect(src: string, s: Vm.State, w: World)
    requires Balanced(src) && Narrow(Compiled(src)) && JustLoaded(Assembled(Compiled(src)), s)
    ensures HaltsWith(s, w) <==> Terminates(Program(src), StartWorld(s), w)
  {
    hide Compiled, Narrow, Known, JustLoaded, Vm.Run, Eval, FRESH_CELLS;
    if HaltsWith(s, w) {
      var n: nat :| Shows(Vm.Run(s, n), w);
      var fuel := ProcessHalts(src, s, n);
    }
    if Terminates(Program(src), StartWorld(s), w) {
      var fuel: nat :| Eval(fuel, Program(src), StartWorld(s)) == Some(w);
      var n := ProcessFollows(src, s, fuel);
      assert Shows(Vm.Run(s, n), w);
    }
  }

  /** Every reachable state of a compiled program without numerals above 255: no exception has been thrown; memory differs from the
      loaded image in the first 256 bytes of the process at most, so that the code from offset 30002 on is
      intact; the stack pointer has not moved; and a running process is at an instruction boundary. */
  lemma {:induction false} ProcessIsContained(src: string, s: Vm.State, n: nat)
    requires Balanced(src) && Narrow(Compiled(src)) && JustLoaded(Assembled(Compiled(src)), s)
    ensures var t := Vm.Run(s, n); var f := s.proc.firstSector;
      && !t.status.Fault? && |t.ram| == |s.ram| && f + 256 <= |s.ram| && |t.regs| == 5
      && t.ram[..f] == s.ram[..f] && t.ram[f + 256..] == s.ram[f + 256..]
      && t.proc.(pc := 0) == s.proc.(pc := 0)
      && (t.status.Running? ==> AtInstruction(Compiled(src), t))
  {
    hide Compiled, Narrow, Assembled, Runnable, Machine.Run, Vm.Run, JustLoaded, FRESH_CELLS;
    StartsThere(src, s);
    CompiledIsRunnable(src);
    var lines := Compiled(src);
    var k0 := Config(1, StartCpu(s), false);
    var m := BytesFollowLines(lines, s, k0, n);
    var k := Machine.Run(lines, k0, m);
    HaltedImage(lines, s, k);
    RunningImage(lines, s, k);
  }

  /** The counter is where the bytes of one of the lines behind the reservation begin, or at the end. */
  ghost predicate AtInstruction(lines: seq<Line>, t: Vm.State)
    requires Known(lines)
  {
    exists i :: 1 <= i <= |lines| && t.proc.pc == Wrap16(t.proc.firstSector + Landed(lines, i))
  }

  lemma RunningImage(lines: seq<Line>, base: Vm.State, k: Config)
    requires Known(lines) && 1 <= k.pc <= |lines|
    requires |base.regs| == 5 && base.proc.firstSector + 256 <= |base.ram|
    ensures |ImageOf(lines, base, k).ram| == |base.ram| && |ImageOf(lines, base, k).regs| == 5
    ensures ImageOf(lines, base, k).status.Running? ==> AtInstruction(lines, ImageOf(lines, base, k))
  {
    hide Landed;
  }

  /** A compiled program takes more than half of the managed memory, so no host ever holds two: with one of
      them loaded, loading another fails. */
  lemma {:induction false} OnlyOneFits(h: Host, i: nat, src: string, other: string)
    requires HostOk(h) && i < |h.slots| && Balanced(src) && Balanced(other)
    requires h.slots[i].code == Assembled(Compiled(src))
    ensures Take(h.list, Footprint(Assembled(Compiled(other)))).None? && Load(h, Assembled(Compiled(other))) == h
  {
    CompiledBytes(src);
    CompiledBytes(other);
    var bytes := Assembled(Compiled(other));
    assert SlotOk(h, h.slots[i]);
    SlotExtent(h, h.slots[i]);
    hide HostOk, SlotOk, Take, Canonical, IsFree, Compiled, Assembled, Known, Balanced;
    if Take(h.list, Footprint(bytes)).Some? { PlacedApart(h, i, bytes); }
  }

  /** A new process would lie below or above the ones that are loaded. */
  lemma PlacedApart(h: Host, i: nat, bytes: seq<Byte>)
    requires HostOk(h) && i < |h.slots| && h.slots[i].proc.memory > 0 && Take(h.list, Footprint(bytes)).Some?
    ensures var f := Take(h.list, Footprint(bytes)).value.0; var p := h.slots[i].proc;
      f + Footprint(bytes) <= MANAGED && (f + Footprint(bytes) <= p.firstSector || p.firstSector + p.memory <= f)
  {
    hide Take, Canonical, SlotOk;
    var f := Take(h.list, Footprint(bytes)).value.0;
    var p := h.slots[i].proc;
    PlaceInManaged(h, bytes);
    OtherSlot(h, bytes, h.slots[i]);
    assert InSlot(h.slots[i], p.firstSector);
    assert InSlot(h.slots[i], f) <==> p.firstSector <= f < p.firstSector + p.memory;
  }

  lemma SlotExtent(h: Host, s: Slot)
    requires SlotOk(h, s)
    ensures s.proc.memory == Footprint(s.code) && s.proc.firstSector + s.proc.memory <= MANAGED
  {
  }

  lemma PlaceInManaged(h: Host, bytes: seq<Byte>)
    requires HostOk(h) && Take(h.list, Footprint(bytes)).Some?
    ensures Take(h.list, Footprint(bytes)).value.0 + Footprint(bytes) <= MANAGED
  {
    hide Take, Canonical, IsFree;
    AllocateExact(h.list, Footprint(bytes));
  }
}
