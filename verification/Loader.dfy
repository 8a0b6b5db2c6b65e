/** `Process` and `Loader`: placing programs in memory. */
module Loader {
  import opened Bytes
  import opened FreeList
  import opened Heap
  import opened HeapBlocks
  import Vm

  const HEAP_SIZE := 1000
  const STACK_SIZE := 1000

  /** The layout of a process in 16-bit addresses: code, then heap, then stack. */
  function Layout(base: Word, size: nat, entry: Word): Vm.Proc {
    var heapStart := Wrap16(base + size);
    var sp := Wrap16(base + (size + HEAP_SIZE + STACK_SIZE));
    Vm.Proc(base, Wrap16(base + size), size + HEAP_SIZE + STACK_SIZE, Wrap16(base + entry), sp,
            heapStart, Wrap16(heapStart + HEAP_SIZE), Wrap16(sp - STACK_SIZE))
  }

  class Process {
    const pid: nat
    var running: bool
    var firstSector: Word
    var lastCodeSector: Word
    var entryPoint: Word
    var allocatedMemory: nat
    var PC: Word
    var SP: Word
    var heapStart: Word
    var stackLimit: Word
    var heapLimit: Word

    function State(): Vm.Proc
      reads this
    {
      Vm.Proc(firstSector, lastCodeSector, allocatedMemory, PC, SP, heapStart, heapLimit, stackLimit)
    }

    constructor (pid: nat, baseAddress: Word, bytecodeSize: nat, entryPoint: Word)
      ensures this.pid == pid && running && this.entryPoint == entryPoint
      ensures State() == Layout(baseAddress, bytecodeSize, entryPoint)
    {
      this.entryPoint := entryPoint;
      this.firstSector := baseAddress;
      this.lastCodeSector := Wrap16(baseAddress + bytecodeSize);
      this.pid := pid;
      this.running := true;
      this.allocatedMemory := bytecodeSize + HEAP_SIZE + STACK_SIZE;
      this.PC := Wrap16(baseAddress + entryPoint);
      var heapBase := Wrap16(baseAddress + bytecodeSize);
      var stackBase := Wrap16(baseAddress + (bytecodeSize + HEAP_SIZE + STACK_SIZE));
      this.heapStart := heapBase;
      this.SP := stackBase;
      this.stackLimit := Wrap16(stackBase - STACK_SIZE);
      this.heapLimit := Wrap16(heapBase + HEAP_SIZE);
    }
  }

  /** Bytes that a program needs. */
  function Footprint(bytecode: seq<Byte>): nat { |bytecode| + HEAP_SIZE + STACK_SIZE }

  /** Memory after loading at `f`: the code, then the header of one free heap block. */
  function LoadedRam(ram: seq<Byte>, f: nat, bytecode: seq<Byte>): (r: seq<Byte>)
    requires f + |bytecode| + 3 <= |ram|
    ensures |r| == |ram|
  {
    ram[..f] + bytecode + [High(HEAP_SIZE), Low(HEAP_SIZE), FREE] + ram[f + |bytecode| + 3..]
  }

  /** The entry point that the two bytes at `f` spell. */
  function EntryOf(ram: seq<Byte>, f: nat): Word
    requires f + 1 < |ram|
  {
    Join(ram[f], ram[f + 1])
  }

  /** Memory with the code at `f`. */
  function WithCode(ram: seq<Byte>, f: nat, bytecode: seq<Byte>): (r: seq<Byte>)
    requires f + |bytecode| <= |ram|
    ensures |r| == |ram|
  {
    ram[..f] + bytecode + ram[f + |bytecode|..]
  }

  /** The process of a program loaded at `f`: its entry point is read when the code is in memory and the heap
      header is not. */
  function LoadedProc(ram: seq<Byte>, f: Word, bytecode: seq<Byte>): Vm.Proc
    requires f + |bytecode| + 3 <= |ram|
  {
    Layout(f, |bytecode|, EntryOf(WithCode(ram, f, bytecode), f))
  }

  /** From two bytes of code on, the entry point is what the code begins with. */
  lemma EntryInCode(ram: seq<Byte>, f: Word, bytecode: seq<Byte>)
    requires f + |bytecode| + 3 <= |ram| && |bytecode| >= 2
    ensures EntryOf(WithCode(ram, f, bytecode), f) == EntryOf(LoadedRam(ram, f, bytecode), f) == Join(bytecode[0], bytecode[1])
  {
  }

  class ProgramLoader {
    var nextReadyPid: nat

    constructor ()
      ensures nextReadyPid == 1
    {
      nextReadyPid := 1;
    }

    /** None is the exception of a failed allocation. */
    method LoadProgram(bytecode: seq<Byte>, manager: MemoryManager, RAM: array<Byte>) returns (r: Process?)
      requires Canonical(manager.freeList) && RAM.Length == RAM_SIZE
      modifies this, manager, RAM
      ensures match Take(old(manager.freeList), Footprint(bytecode))
        case None =>
          && r == null && RAM[..] == old(RAM[..]) && manager.freeList == old(manager.freeList)
          && nextReadyPid == old(nextReadyPid)
        case Some((f, list)) =>
          && r != null && fresh(r) && r.pid == old(nextReadyPid) && nextReadyPid == old(nextReadyPid) + 1
          && manager.freeList == list && Canonical(list) && f + Footprint(bytecode) <= MANAGED
          && RAM[..] == LoadedRam(old(RAM[..]), f, bytecode)
          && r.State() == LoadedProc(old(RAM[..]), f, bytecode) && r.running
    {
      hide Take, Canonical, LoadedRam, Layout, WithCode, WithHeader;
      AllocateExact(manager.freeList, Footprint(bytecode));
      var start := manager.Allocate(|bytecode| + HEAP_SIZE + STACK_SIZE);
      if start.None? {
        return null;
      }
      var f := start.value;
      CopyCode(RAM, f, bytecode);
      var entryPoint := Join(RAM[f], RAM[f + 1]);
      r := new Process(nextReadyPid, f, |bytecode|, entryPoint);
      nextReadyPid := nextReadyPid + 1;
      WriteHeader(RAM, f + |bytecode|, HEAP_SIZE, FREE);
      HeaderAfterCode(old(RAM[..]), f, bytecode);
    }

    static method CopyCode(RAM: array<Byte>, f: nat, bytecode: seq<Byte>)
      requires f + |bytecode| <= RAM.Length
      modifies RAM
      ensures RAM[..] == WithCode(old(RAM[..]), f, bytecode)
    {
      ghost var before: seq<Byte> := RAM[..];
      var i := 0;
      while i < |bytecode|
        invariant 0 <= i <= |bytecode|
        invariant forall k :: 0 <= k < RAM.Length ==> RAM[k] == if f <= k < f + i then bytecode[k - f] else before[k]
      {
        RAM[f + i] := bytecode[i];
        i := i + 1;
      }
    }

    method Reset()
      modifies this
      ensures nextReadyPid == 1
    {
      nextReadyPid := 1;
    }
  }

  /** Writing the header of the first heap block completes the loading. */
  lemma HeaderAfterCode(ram: seq<Byte>, f: nat, bytecode: seq<Byte>)
    requires f + |bytecode| + 3 <= |ram|
    ensures WithHeader(WithCode(ram, f, bytecode), f + |bytecode|, HEAP_SIZE, FREE) == LoadedRam(ram, f, bytecode)
  {
  }

  // ----- layout -----

  /** Below the managed limit nothing is truncated: code, heap and stack follow each other without gap
      and fill exactly the region of the process. */
  lemma LayoutExact(base: Word, size: nat, entry: Word)
    requires base + size + HEAP_SIZE + STACK_SIZE <= MANAGED
    ensures var p := Layout(base, size, entry);
      && p.firstSector == base && base + size == p.lastCode == p.heapStart && p.memory == size + HEAP_SIZE + STACK_SIZE
      && p.heapStart + HEAP_SIZE == p.heapLimit == p.stackLimit
      && p.stackLimit + STACK_SIZE == p.sp == p.firstSector + p.memory
  {
    Untruncated(base + size);
    Untruncated(base + size + HEAP_SIZE);
    Untruncated(base + (size + HEAP_SIZE + STACK_SIZE));
  }

  lemma Untruncated(w: nat)
    requires w < 0x1_0000
    ensures Wrap16(w) == w
  {
  }

  /** A loaded process owns a heap of one free block. */
  lemma LoadedHeap(ram: seq<Byte>, f: Word, bytecode: seq<Byte>)
    requires |ram| == RAM_SIZE && f + Footprint(bytecode) <= MANAGED
    ensures var p := LoadedProc(ram, f, bytecode);
      HeapInv(LoadedRam(ram, f, bytecode), p.heapStart, p.heapLimit, [Block(HEAP_SIZE, false)])
  {
    LayoutExact(f, |bytecode|, EntryOf(WithCode(ram, f, bytecode), f));
    SizeOne(Block(HEAP_SIZE, false));
    JoinSplit(HEAP_SIZE);
    var ram1 := LoadedRam(ram, f, bytecode);
    var p := f + |bytecode|;
    assert ram1[p] == High(HEAP_SIZE) && ram1[p + 1] == Low(HEAP_SIZE) && ram1[p + 2] == FREE;
  }

  // ----- loading several programs -----

  datatype Slot = Slot(proc: Vm.Proc, code: seq<Byte>)

  /** The host: memory, the allocator's list, and the processes loaded so far. */
  datatype Host = Host(ram: seq<Byte>, list: seq<Range>, slots: seq<Slot>)

  function Load(h: Host, bytecode: seq<Byte>): Host {
    match Take(h.list, Footprint(bytecode))
    case None => h
    case Some((f, list)) =>
      if f + |bytecode| + 3 <= |h.ram| then
        Host(LoadedRam(h.ram, f, bytecode), list, h.slots + [Slot(LoadedProc(h.ram, f, bytecode), bytecode)])
      else h
  }

  predicate InSlot(s: Slot, a: int) { s.proc.firstSector <= a < s.proc.firstSector + s.proc.memory }

  /** The process of a slot has the layout of its code, and the entry point that the code begins with. */
  ghost predicate LaidOut(s: Slot) {
    exists entry ::
      && s.proc == Layout(s.proc.firstSector, |s.code|, entry)
      && (|s.code| >= 2 ==> entry == Join(s.code[0], s.code[1]))
  }

  /** A process lies in managed memory, outside the free ranges, with its code and a fresh heap in place. */
  ghost predicate SlotOk(h: Host, s: Slot) {
    && |h.ram| == RAM_SIZE
    && s.proc.firstSector + Footprint(s.code) <= MANAGED
    && LaidOut(s)
    && h.ram[s.proc.firstSector..s.proc.firstSector + |s.code|] == s.code
    && HeapInv(h.ram, s.proc.heapStart, s.proc.heapLimit, [Block(HEAP_SIZE, false)])
    && forall a :: InSlot(s, a) ==> !IsFree(h.list, a)
  }

  ghost predicate HostOk(h: Host) {
    && |h.ram| == RAM_SIZE && Canonical(h.list)
    && (forall i :: 0 <= i < |h.slots| ==> SlotOk(h, h.slots[i]))
    && (forall i, j, a :: 0 <= i < j < |h.slots| && InSlot(h.slots[i], a) ==> !InSlot(h.slots[j], a))
  }

  /** Loading elsewhere leaves a loaded process alone. */
  lemma OtherSlot(h: Host, bytecode: seq<Byte>, s: Slot)
    requires HostOk(h) && SlotOk(h, s) && Take(h.list, Footprint(bytecode)).Some?
    ensures SlotOk(Load(h, bytecode), s)
    ensures var (f, list) := Take(h.list, Footprint(bytecode)).value;
      forall a :: InSlot(s, a) ==> !(f <= a < f + Footprint(bytecode))
  {
    hide Take, Canonical, IsFree, Chain, LoadedRam;
    AllocateExact(h.list, Footprint(bytecode));
    var (f, list) := Take(h.list, Footprint(bytecode)).value;
    var h1 := Load(h, bytecode);
    LayoutExact(s.proc.firstSector, |s.code|, 0);
    assert forall a :: f <= a < f + Footprint(bytecode) ==> IsFree(h.list, a);
    forall a | InSlot(s, a)
      ensures 0 <= a < |h.ram| && h1.ram[a] == h.ram[a] && !(f <= a < f + Footprint(bytecode))
    {
      LoadedElsewhere(h.ram, f, bytecode, a);
    }
    SlotFrame(h.ram, h1.ram, s);
  }

  /** Bytes outside the loaded region stay. */
  lemma LoadedElsewhere(ram: seq<Byte>, f: nat, bytecode: seq<Byte>, a: nat)
    requires f + Footprint(bytecode) <= |ram| && a < |ram|
    ensures !(f <= a < f + Footprint(bytecode)) ==> LoadedRam(ram, f, bytecode)[a] == ram[a]
  {
  }

  lemma SlotFrame(ram: seq<Byte>, ram1: seq<Byte>, s: Slot)
    requires |ram1| == |ram| == RAM_SIZE && s.proc.firstSector + Footprint(s.code) <= MANAGED
    requires LaidOut(s)
    requires forall a :: InSlot(s, a) ==> 0 <= a < |ram| && ram1[a] == ram[a]
    requires HeapInv(ram, s.proc.heapStart, s.proc.heapLimit, [Block(HEAP_SIZE, false)])
    ensures HeapInv(ram1, s.proc.heapStart, s.proc.heapLimit, [Block(HEAP_SIZE, false)])
    ensures var f := s.proc.firstSector; ram1[f..f + |s.code|] == ram[f..f + |s.code|]
  {
    hide Chain;
    var p := s.proc;
    var entry :| p == Layout(p.firstSector, |s.code|, entry);
    LayoutExact(p.firstSector, |s.code|, entry);
    hide Layout;
    var f := p.firstSector;
    forall k | f <= k < f + |s.code| ensures ram1[k] == ram[k] {
      assert InSlot(s, k);
    }
    forall k | p.heapStart <= k < p.heapLimit + 3 ensures ram1[k] == ram[k] {
      assert InSlot(s, k);
    }
    SizeOne(Block(HEAP_SIZE, false));
    ChainFrame(ram, ram1, p.heapStart, [Block(HEAP_SIZE, false)]);
  }

  lemma LoadedIsLaidOut(ram: seq<Byte>, f: Word, bytecode: seq<Byte>)
    requires f + |bytecode| + 3 <= |ram|
    ensures LaidOut(Slot(LoadedProc(ram, f, bytecode), bytecode))
    ensures LoadedProc(ram, f, bytecode).firstSector == f
  {
    if |bytecode| >= 2 { EntryInCode(ram, f, bytecode); }
  }

  /** Loading one more program keeps all processes apart and intact. */
  lemma LoadKeeps(h: Host, bytecode: seq<Byte>)
    requires HostOk(h)
    ensures HostOk(Load(h, bytecode))
  {
    hide Take, Canonical, IsFree, HeapInv;
    AllocateExact(h.list, Footprint(bytecode));
    if Take(h.list, Footprint(bytecode)).Some? {
      var (f, list) := Take(h.list, Footprint(bytecode)).value;
      var h1 := Load(h, bytecode);
      var s := h1.slots[|h.slots|];
      forall i | 0 <= i < |h.slots| ensures SlotOk(h1, h1.slots[i]) && forall a :: InSlot(h1.slots[i], a) ==> !InSlot(s, a) {
        OtherSlot(h, bytecode, h.slots[i]);
      }
      LoadedHeap(h.ram, f, bytecode);
      LoadedIsLaidOut(h.ram, f, bytecode);
      assert h1.ram[f..f + |bytecode|] == bytecode;
      assert SlotOk(h1, s);
    }
  }

  function LoadAll(h: Host, programs: seq<seq<Byte>>): Host
    decreases |programs|
  {
    if programs == [] then h else LoadAll(Load(h, programs[0]), programs[1..])
  }

  lemma {:induction false} LoadAllKeeps(h: Host, programs: seq<seq<Byte>>)
    requires HostOk(h)
    ensures HostOk(LoadAll(h, programs))
    ensures var h1 := LoadAll(h, programs);
      forall i :: 0 <= i < |h1.slots| ==> h1.slots[i].proc.firstSector + h1.slots[i].proc.memory <= MANAGED
    decreases |programs|
  {
    hide Load, HeapInv, IsFree, Canonical;
    if programs != [] {
      LoadKeeps(h, programs[0]);
      LoadAllKeeps(Load(h, programs[0]), programs[1..]);
    }
  }

  /** The host before anything is loaded. */
  function FreshHost(ram: seq<Byte>): Host { Host(ram, [Range(0, MANAGED)], []) }

  /** Any sequence of loads on a fresh host gives pairwise disjoint processes, none of which contains
      the interface control byte or the framebuffer, each with its own code and free heap in place. */
  lemma LoadedApart(ram: seq<Byte>, programs: seq<seq<Byte>>)
    requires |ram| == RAM_SIZE
    ensures HostOk(LoadAll(FreshHost(ram), programs))
    ensures var slots := LoadAll(FreshHost(ram), programs).slots;
      forall i :: 0 <= i < |slots| ==> slots[i].proc.firstSector + slots[i].proc.memory <= MANAGED
  {
    FreshHostOk(ram);
    LoadAllKeeps(FreshHost(ram), programs);
  }

  lemma FreshHostOk(ram: seq<Byte>)
    requires |ram| == RAM_SIZE
    ensures HostOk(FreshHost(ram))
  {
  }

  /** The first allocation of a fresh list is at address 0. */
  lemma FirstPlace(n: nat)
    requires n > 0
    ensures Take([Range(0, MANAGED)], n).Some? <==> n <= MANAGED
    ensures n <= MANAGED ==> Take([Range(0, MANAGED)], n).value.0 == 0
    ensures n < MANAGED ==> Take([Range(0, MANAGED)], n).value.1 == [Range(n, MANAGED - n)]
  {
    assert [Range(0, MANAGED)][1..] == [];
    if n < MANAGED {
      assert Wrap16(n) == n;
      assert [Range(n, MANAGED - n)] + [] == [Range(n, MANAGED - n)];
    }
  }

  /** The first program is loaded at address 0, the second one right behind it. */
  lemma SecondProgram(ram: seq<Byte>, first: seq<Byte>, second: seq<Byte>)
    requires |ram| == RAM_SIZE && Footprint(first) + Footprint(second) <= MANAGED
    ensures var slots := Load(Load(FreshHost(ram), first), second).slots;
      && |slots| == 2 && slots[0].proc.firstSector == 0 && slots[1].proc.firstSector == Footprint(first)
      && slots[0].code == first && slots[1].code == second
  {
    hide LoadedRam, EntryOf, WithCode;
    FirstPlace(Footprint(first));
  }
}
