/** Whole runs of a process on bytes: instructions that mind the headers of the heap and the used stack keep
    both, for any number of rounds. */
module ProcessRuns {
  import opened Bytes
  import opened Isa
  import opened Heap
  import opened HeapBlocks
  import HeapRuns
  import opened Vm
  import opened Stack
  import opened Lifo
  import opened HeapInstructions
  import opened HeapAndStack
  import Brainfuck
  import Loader
  import FreeList

  /** The next instruction minds what it does. Its destination is neither on the used stack nor in a header,
      a push stays 2 bytes above the heap limit, and HFREE gets the pointer of a held region. */
  ghost predicate Minds(s: State, f: Fetched, bs: seq<Block>)
    requires |f.args| == Arity(f.opcode)
  {
    match f.opcode
    case 0x12 | 0x32 | 0x52 | 0x72 | 0x92 | 0x21 => Elsewhere(s, f.args[0], s.proc.sp, bs)
    case 0x81 => s.proc.sp - StackWidth(f.args[0]) >= s.proc.heapLimit + 2
    case 0x91 => Elsewhere(s, f.args[0], s.proc.sp + StackWidth(f.args[0]), bs)
    case 0xB1 => s.proc.sp - 2 >= s.proc.heapLimit + 2
    case 0xC2 => MindsAlloc(s, f.args[0], f.args[1], bs)
    case 0xA1 => exists region :: region in Regions(s.proc.heapStart, bs) && region.0 == Pointer(s, f.args[0])
    case _ => true
  }

  /** A destination off the headers, and off the stack bytes from `from` on. */
  ghost predicate Elsewhere(s: State, arg: RawArg, from: nat, bs: seq<Block>) {
    OutsideStack(s, arg, from) && OffHeaders(s, Resolve(s, arg), bs)
  }

  /** HALLOC's destination must not be one of the headers that it writes, either. */
  ghost predicate MindsAlloc(s: State, place: RawArg, size: RawArg, bs: seq<Block>) {
    && OutsideStack(s, place, s.proc.sp) && LabelOffHeap(s, place)
    && (ReadArg(s, size).Val? && FitIndex(bs, ReadArg(s, size).v) < |bs| ==>
          OffHeaders(s, Resolve(s, place), AfterAlloc(bs, ReadArg(s, size).v)))
  }

  ghost predicate Careful(s: State, bs: seq<Block>) {
    Live(s) && Next(s).Some? ==> Minds(Ready(s), Next(s).value, bs)
  }

  /** Every one of `n` rounds is careful with the heap that it finds. */
  ghost predicate CarefulRun(s: State, n: nat)
    decreases n
  {
    n > 0 ==> (forall bs :: HasHeap(s, bs) ==> Careful(s, bs)) && CarefulRun(Step(s), n - 1)
  }

  /** A stack in range, 2 bytes above the heap limit at least, and a well-formed heap. */
  ghost predicate InOrder(s: State, bs: seq<Block>) {
    WellStacked(s) && HasHeap(s, bs) && s.proc.sp >= s.proc.heapLimit + 2
  }

  // ----- one instruction -----

  lemma StoreKeepsHeap(s: State, arg: RawArg, v: Byte, bs: seq<Block>)
    requires HasHeap(s, bs) && OffHeaders(s, Resolve(s, arg), bs)
    ensures HasHeap(Assign(s, arg, v), bs)
  {
    hide Resolve, Chain, NoFreeNeighbours, EndsInside, Size, OnHeader;
    ResolveValid(s, arg);
    ChainOnHeaders(s.ram, Assign(s, arg, v).ram, s.proc.heapStart, bs);
  }

  /** Instructions that store once, and those that do not touch memory. */
  lemma SimpleKeepsHeap(s: State, f: Fetched, bs: seq<Block>)
    requires |f.args| == Arity(f.opcode) && f.opcode !in {0x81, 0x91, 0xB1, 0x20, 0xC2, 0xA1}
    requires HasHeap(s, bs) && Minds(s, f, bs)
    ensures HasHeap(Dispatch(s, f), bs)
  {
    hide HeapInv, Assign, ReadArg, Deref, Resolve, OutsideStack, OffHeaders;
    if f.opcode in {0x12, 0x32, 0x52, 0x72, 0x92, 0x21} {
      forall v ensures HasHeap(Assign(s, f.args[0], v), bs) { StoreKeepsHeap(s, f.args[0], v, bs); }
      InputKeepsHeap(s, f.args[0], bs);
    }
  }

  lemma InputKeepsHeap(s: State, arg: RawArg, bs: seq<Block>)
    requires HasHeap(s, bs) && OffHeaders(s, Resolve(s, arg), bs)
    ensures HasHeap(Input(s, arg), bs)
  {
    hide HeapInv, Assign;
    var s1 := s.(input := Brainfuck.RestInput(s.input));
    StoreKeepsHeap(s1, arg, Brainfuck.NextInput(s.input), bs);
  }

  lemma PopKeepsHeap(s: State, arg: RawArg, bs: seq<Block>)
    requires WellStacked(s) && HasHeap(s, bs) && OffHeaders(s, Resolve(s, arg), bs)
    requires !Pop(s, arg).status.Fault?
    ensures HasHeap(Pop(s, arg), bs) && Pop(s, arg).proc.sp >= s.proc.sp
    ensures Pop(s, arg).proc.heapLimit == s.proc.heapLimit
  {
    hide HeapInv, Assign, Resolve;
    var v := s.ram[s.proc.sp + StackWidth(arg) - 1];
    StoreKeepsHeap(s, arg, v, bs);
    AssignKeeps(s, arg, v);
  }

  lemma AllocKeepsHeap(s: State, place: RawArg, size: RawArg, bs: seq<Block>)
    requires s.status.Running? && HasHeap(s, bs) && MindsAlloc(s, place, size, bs)
    requires !Alloc(s, place, size).status.Fault?
    ensures ReadArg(s, size).Val? && FitIndex(bs, ReadArg(s, size).v) < |bs|
    ensures HasHeap(Alloc(s, place, size), AfterAlloc(bs, ReadArg(s, size).v))
  {
    hide HeapInv, Halloc, FitIndex, AfterAlloc, ReadArg, Resolve, Alloc, OnHeader, OutsideStack, LabelOffHeap, SameOffHeap, Content;
    AllocInstruction(s, place, size, bs);
    AllocKeepsProc(s, place, size);
    var n := ReadArg(s, size).v;
    HallocExact(s.ram, s.proc.heapStart, s.proc.heapLimit, bs, n);
    AllocStaysInHeap(s, n, bs);
    SameLabel(s, Halloc(s.ram, s.proc.heapStart, s.proc.heapLimit, n).ram, place);
  }

  /** The destination is where it was before the allocation. */
  lemma SameLabel(s: State, ram: seq<Byte>, arg: RawArg)
    requires LabelOffHeap(s, arg) && SameOffHeap(s, ram)
    ensures Resolve(s.(ram := ram), arg) == Resolve(s, arg)
  {
  }

  lemma ReleaseKeepsHeap(s: State, arg: RawArg, bs: seq<Block>, region: (nat, nat)) returns (bs1: seq<Block>)
    requires HasHeap(s, bs) && region in Regions(s.proc.heapStart, bs) && region.0 == Pointer(s, arg)
    ensures HasHeap(Release(s, arg), bs1) && Regions(s.proc.heapStart, bs1) == Regions(s.proc.heapStart, bs) - {region}
    ensures Release(s, arg).proc == s.proc
  {
    hide Hfree, HeapInv, Deref, Regions, HeapRuns.Elsewhere;
    bs1 := HeapRuns.HfreeExact(s.ram, s.proc.heapStart, s.proc.heapLimit, bs, region);
  }

  lemma ReturnKeepsHeap(s: State, bs: seq<Block>)
    requires WellStacked(s) && HasHeap(s, bs) && !Return(s).status.Fault?
    ensures HasHeap(Return(s), bs) && Return(s).proc.sp >= s.proc.sp
    ensures Return(s).proc.heapLimit == s.proc.heapLimit
  {
    hide HeapInv;
    Loader.Untruncated(s.proc.sp + 2);
  }

  /** What an instruction makes of the held regions. */
  ghost predicate RegionsMove(s: State, f: Fetched, bs: seq<Block>, bs1: seq<Block>)
    requires |f.args| == Arity(f.opcode)
  {
    if f.opcode == 0xC2 then
      && ReadArg(s, f.args[1]).Val? && FitIndex(bs, ReadArg(s, f.args[1]).v) < |bs|
      && bs1 == AfterAlloc(bs, ReadArg(s, f.args[1]).v)
    else if f.opcode == 0xA1 then
      exists region ::
        && region in Regions(s.proc.heapStart, bs) && region.0 == Pointer(s, f.args[0])
        && Regions(s.proc.heapStart, bs1) == Regions(s.proc.heapStart, bs) - {region}
    else bs1 == bs
  }

  lemma DispatchKeepsHeap(s: State, f: Fetched, bs: seq<Block>) returns (bs1: seq<Block>)
    requires s.status.Running? && |f.args| == Arity(f.opcode) && InOrder(s, bs) && Minds(s, f, bs)
    requires !Dispatch(s, f).status.Fault?
    ensures HasHeap(Dispatch(s, f), bs1) && RegionsMove(s, f, bs, bs1)
    ensures Dispatch(s, f).proc.sp >= s.proc.heapLimit + 2 && Dispatch(s, f).proc.heapLimit == s.proc.heapLimit
  {
    hide HasHeap, WellStacked, Push, Call, Pop, Return, Alloc, Release, Resolve, ReadArg, Regions, FitIndex, AfterAlloc, OffHeaders,
      OutsideStack, Pointer;
    bs1 := bs;
    match f.opcode
    case 0x81 =>
      PushMoves(s, f.args[0]);
      PushKeepsHeap(s, f.args[0], bs);
    case 0xB1 =>
      CallMoves(s, f.args[0]);
      PushKeepsHeap(s, f.args[0], bs);
    case 0x91 => PopKeepsHeap(s, f.args[0], bs);
    case 0x20 => ReturnKeepsHeap(s, bs);
    case 0xC2 =>
      AllocKeepsHeap(s, f.args[0], f.args[1], bs);
      AllocKeepsProc(s, f.args[0], f.args[1]);
      bs1 := AfterAlloc(bs, ReadArg(s, f.args[1]).v);
    case 0xA1 =>
      var region :| region in Regions(s.proc.heapStart, bs) && region.0 == Pointer(s, f.args[0]);
      bs1 := ReleaseKeepsHeap(s, f.args[0], bs, region);
    case _ =>
      SimpleKeepsHeap(s, f, bs);
      hide Dispatch;
      QuietKeeps(s, f);
  }

  /** Where SPUSH and CALL end. */
  lemma PushMoves(s: State, arg: RawArg)
    requires WellStacked(s) && s.status.Running? && !Push(s, arg).status.Fault?
    ensures Push(s, arg).proc == s.proc.(sp := s.proc.sp - StackWidth(arg))
  {
    hide PushBytes, ReadArg, StackBytes;
    PushIs(s, arg);
    PushBytesExact(s, if StackWidth(arg) == 1 then [ReadArg(s, arg).v] else [0, ReadArg(s, arg).v]);
  }

  lemma CallMoves(s: State, arg: RawArg)
    requires WellStacked(s) && s.status.Running? && !Call(s, arg).status.Fault?
    ensures Call(s, arg).proc == s.proc.(sp := s.proc.sp - 2, pc := Call(s, arg).proc.pc)
  {
    hide PushBytes, StackBytes;
    PushBytesExact(s, [High(s.proc.pc), Low(s.proc.pc)]);
  }

  // ----- runs -----

  lemma CarefulIsTame(s: State, bs: seq<Block>)
    requires InOrder(s, bs) && Careful(s, bs)
    ensures Tame(s)
  {
    hide Resolve, OutsideStack, OffHeaders, HeapInv, Regions, Pointer, Fetch, Arity, Step, Tame;
    if Live(s) && Next(s).Some? {
      var f := Next(s).value;
      assert StoresElsewhere(Ready(s), f, bs);
    }
    ElsewhereIsTame(s, bs);
  }

  /** One careful round keeps everything in order. */
  lemma CarefulStep(s: State, bs: seq<Block>) returns (bs1: seq<Block>)
    requires InOrder(s, bs) && Careful(s, bs) && !Step(s).status.Fault?
    ensures InOrder(Step(s), bs1) && Tame(s)
    ensures Live(s) && Next(s).Some? ==> RegionsMove(Ready(s), Next(s).value, bs, bs1)
  {
    bs1 := bs;
    CarefulIsTame(s, bs);
    StepInRange(s);
    if Live(s) {
      StepFetches(s);
      StepDispatches(s);
      hide Fetch, Arity, Step, Dispatch, HeapInv, Minds, Tame, StackBytes;
      bs1 := DispatchKeepsHeap(Ready(s), Next(s).value, bs);
    }
  }

  /** Over every careful run that throws nothing, heap and stack stay in order together: the headers go on
      tiling the heap, and the stack is the abstract one. */
  lemma {:induction false} RunKeepsBoth(s: State, n: nat, bs: seq<Block>) returns (bs1: seq<Block>)
    requires InOrder(s, bs) && CarefulRun(s, n) && !Run(s, n).status.Fault?
    ensures InOrder(Run(s, n), bs1) && TameRun(s, n)
    ensures ApplyAll(StackBytes(s), Trace(s, n)) == Some(StackBytes(Run(s, n)))
    decreases n
  {
    hide *;
    bs1 := HeapThrough(s, n, bs);
    OrderedIsStacked(s, bs);
    RunRefines(s, n);
  }

  lemma OrderedIsStacked(s: State, bs: seq<Block>)
    requires InOrder(s, bs)
    ensures WellStacked(s)
  {
  }

  lemma {:induction false} HeapThrough(s: State, n: nat, bs: seq<Block>) returns (bs1: seq<Block>)
    requires InOrder(s, bs) && CarefulRun(s, n) && !Run(s, n).status.Fault?
    ensures InOrder(Run(s, n), bs1) && TameRun(s, n)
    decreases n
  {
    hide Step, WellStacked, HasHeap, Careful, Tame;
    bs1 := bs;
    if n > 0 {
      if Step(s).status.Fault? { RunStopped(Step(s), n - 1); }
      bs1 := CarefulStep(s, bs);
      bs1 := HeapThrough(Step(s), n - 1, bs1);
    }
  }

  /** From loading on: the heap starts as one free block and the abstract stack as empty. */
  lemma {:induction false} LoadedRunKeepsBoth(ram: seq<Byte>, f: Word, bytecode: seq<Byte>, s: State, n: nat) returns (bs: seq<Block>)
    requires |ram| == FreeList.RAM_SIZE && f + Loader.Footprint(bytecode) <= FreeList.MANAGED
    requires s.ram == Loader.LoadedRam(ram, f, bytecode) && s.proc == Loader.LoadedProc(ram, f, bytecode)
    requires CarefulRun(s, n) && !Run(s, n).status.Fault?
    ensures InOrder(Run(s, n), bs) && ApplyAll([], Trace(s, n)) == Some(StackBytes(Run(s, n)))
  {
    hide Loader.LoadedRam, Loader.WithCode, Loader.EntryOf, Step, CarefulRun, HeapInv;
    LayoutIsStacked(s, f, |bytecode|, Loader.EntryOf(Loader.WithCode(ram, f, bytecode), f));
    Loader.LayoutExact(f, |bytecode|, Loader.EntryOf(Loader.WithCode(ram, f, bytecode), f));
    Loader.LoadedHeap(ram, f, bytecode);
    bs := RunKeepsBoth(s, n, [Block(Loader.HEAP_SIZE, false)]);
  }

  /** A tame run from loading on: nothing is on the stack but what the run itself has pushed. */
  lemma {:induction false} LoadedRunRefines(ram: seq<Byte>, f: Word, bytecode: seq<Byte>, s: State, n: nat)
    requires |ram| == FreeList.RAM_SIZE && f + Loader.Footprint(bytecode) <= FreeList.MANAGED
    requires s.ram == Loader.LoadedRam(ram, f, bytecode) && s.proc == Loader.LoadedProc(ram, f, bytecode)
    requires TameRun(s, n) && !Run(s, n).status.Fault?
    ensures WellStacked(Run(s, n)) && ApplyAll([], Trace(s, n)) == Some(StackBytes(Run(s, n)))
  {
    LayoutIsStacked(s, f, |bytecode|, Loader.EntryOf(Loader.WithCode(ram, f, bytecode), f));
    hide *;
    RunRefines(s, n);
  }
}
