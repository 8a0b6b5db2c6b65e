/** HALLOC and HFREE as instructions of a process, where the 16-bit pointer goes through an 8-bit cell. */
module HeapInstructions {
  import opened Bytes
  import opened Isa
  import Vm
  import opened Heap
  import opened HeapBlocks
  import opened HeapRuns
  import opened FreeList
  import opened Loader

  /** The payload address of block `i`. */
  function PointerTo(s: Vm.State, bs: seq<Block>, i: nat): nat
    requires i <= |bs|
  {
    s.proc.heapStart + Size(bs[..i]) + 3
  }

  /** A register, or a cell that holds no byte of a header. */
  predicate OffHeaders(s: Vm.State, loc: Vm.Loc, bs: seq<Block>) {
    match loc
    case RegAt(_) => true
    case CellAt(addr) => !OnHeader(s.proc.heapStart, bs, addr)
    case NoLoc(_) => false
  }

  /** The location that HALLOC stores its pointer in: its operand is resolved after the allocation. */
  function Destination(s: Vm.State, place: RawArg, n: nat): Vm.Loc {
    match Halloc(s.ram, s.proc.heapStart, s.proc.heapLimit, n)
    case Allocated(ram1, _) => Vm.Resolve(s.(ram := ram1), place)
    case _ => Vm.NoLoc(Vm.HeapOverflow)
  }

  /** HALLOC throws what reading its size throws, or overflows iff no free block fits, or throws what its
      destination throws. Otherwise the destination gets the low byte of the pointer, so the pointer itself
      iff that is below 256; and unless the destination is in a header, the heap is that of HallocExact. */
  lemma {:induction false} AllocInstruction(s: Vm.State, place: RawArg, size: RawArg, bs: seq<Block>)
    requires s.status.Running? && HeapInv(s.ram, s.proc.heapStart, s.proc.heapLimit, bs)
    ensures Vm.ReadArg(s, size).Err? ==> Vm.Alloc(s, place, size) == Vm.Throw(s, Vm.ReadArg(s, size).error)
    ensures Vm.ReadArg(s, size).Val? ==>
      var t := Vm.Alloc(s, place, size);
      var n := Vm.ReadArg(s, size).v; var i := FitIndex(bs, n); var loc := Destination(s, place, n);
      && (i == |bs| <==> forall j :: 0 <= j < |bs| ==> !Fits(bs[j], n))
      && (i == |bs| ==> t == Vm.Throw(s, Vm.HeapOverflow))
      && (i < |bs| && loc.NoLoc? ==> t.status == Vm.Fault(loc.error))
      && (i < |bs| && !loc.NoLoc? ==>
            && t.status.Running? && Vm.Content(t, loc) == Vm.Val(Wrap(PointerTo(s, bs, i)))
            && (Wrap(PointerTo(s, bs, i)) == PointerTo(s, bs, i) <==> PointerTo(s, bs, i) < 256))
      && (i < |bs| && OffHeaders(s, loc, AfterAlloc(bs, n)) ==>
            HeapInv(t.ram, t.proc.heapStart, t.proc.heapLimit, AfterAlloc(bs, n)))
  {
    hide Halloc, HeapInv, AfterAlloc, FitIndex, Carved, Regions, InOwned, Size, Vm.Deref, Vm.Assign, Vm.Resolve;
    match Vm.ReadArg(s, size)
    case Err(_) =>
    case Val(n) =>
      HallocExact(s.ram, s.proc.heapStart, s.proc.heapLimit, bs, n);
      var r := Halloc(s.ram, s.proc.heapStart, s.proc.heapLimit, n);
      if r.Allocated? {
        PointerStored(s.(ram := r.ram), place, r.ptr, AfterAlloc(bs, n));
      }
  }

  /** Storing a byte. */
  lemma PointerStored(s: Vm.State, place: RawArg, ptr: Word, bs: seq<Block>)
    requires s.status.Running? && HeapInv(s.ram, s.proc.heapStart, s.proc.heapLimit, bs)
    ensures var t := Vm.Assign(s, place, Wrap(ptr)); var loc := Vm.Resolve(s, place);
      && t.proc == s.proc
      && (loc.NoLoc? ==> t.status == Vm.Fault(loc.error))
      && (!loc.NoLoc? ==> t.status.Running? && Vm.Content(t, loc) == Vm.Val(Wrap(ptr)))
      && (OffHeaders(s, loc, bs) ==> HeapInv(t.ram, t.proc.heapStart, t.proc.heapLimit, bs))
  {
    hide Vm.Resolve, Chain, NoFreeNeighbours, EndsInside, Size, OnHeader;
    Vm.ResolveValid(s, place);
    if OffHeaders(s, Vm.Resolve(s, place), bs) {
      ChainOnHeaders(s.ram, Vm.Assign(s, place, Wrap(ptr)).ram, s.proc.heapStart, bs);
    }
  }

  /** In a process whose heap starts at 253 or above, what HALLOC stores is never the address of any region. */
  lemma {:induction false} PointerLost(s: Vm.State, place: RawArg, size: RawArg, bs: seq<Block>)
    requires s.status.Running? && HeapInv(s.ram, s.proc.heapStart, s.proc.heapLimit, bs) && s.proc.heapStart >= 253
    requires Vm.ReadArg(s, size).Val? && FitIndex(bs, Vm.ReadArg(s, size).v) < |bs|
    requires !Destination(s, place, Vm.ReadArg(s, size).v).NoLoc?
    ensures var n := Vm.ReadArg(s, size).v;
      var stored := Vm.Content(Vm.Alloc(s, place, size), Destination(s, place, n));
      && stored.Val?
      && forall region :: region in Regions(s.proc.heapStart, AfterAlloc(bs, n)) ==> region.0 != stored.v
  {
    hide HeapInv, AfterAlloc, FitIndex, Vm.ReadArg, Vm.Resolve, Vm.Alloc, Regions, Size, Vm.Content;
    AllocInstruction(s, place, size, bs);
    RegionsInside(s.proc.heapStart, AfterAlloc(bs, Vm.ReadArg(s, size).v));
  }

  /** For pointers below 256, HFREE through the same operand undoes HALLOC, as long as the operand still
      denotes the same location. */
  lemma {:induction false} FreeThroughOperand(s: Vm.State, place: RawArg, size: RawArg, bs: seq<Block>)
    requires s.status.Running? && HeapInv(s.ram, s.proc.heapStart, s.proc.heapLimit, bs)
    requires Vm.ReadArg(s, size).Val? && FitIndex(bs, Vm.ReadArg(s, size).v) < |bs|
    requires OffHeaders(s, Destination(s, place, Vm.ReadArg(s, size).v), AfterAlloc(bs, Vm.ReadArg(s, size).v))
    requires place.typ != ADDRESS
    requires Vm.Resolve(Vm.Alloc(s, place, size), place) == Destination(s, place, Vm.ReadArg(s, size).v)
    requires PointerTo(s, bs, FitIndex(bs, Vm.ReadArg(s, size).v)) < 256
    ensures var t := Vm.Release(Vm.Alloc(s, place, size), place);
      t.status.Running? && HeapInv(t.ram, t.proc.heapStart, t.proc.heapLimit, bs)
  {
    var n := Vm.ReadArg(s, size).v;
    var t := Vm.Alloc(s, place, size);
    var i := FitIndex(bs, n);
    AllocInstruction(s, place, size, bs);
    AllocKeepsProc(s, place, size);
    hide *;
    FreeLast(t.ram, s.proc.heapStart, s.proc.heapLimit, bs, n, PointerTo(s, bs, i));
    ReleaseIs(t, place, PointerTo(s, bs, i));
  }

  /** Releasing the block that AfterAlloc gave out, in memory that still holds those blocks. */
  lemma FreeLast(ram: seq<Byte>, start: nat, limit: nat, bs: seq<Block>, n: nat, ptr: nat)
    requires FitIndex(bs, n) < |bs| && HeapInv(ram, start, limit, AfterAlloc(bs, n))
    requires NoFreeNeighbours(bs) && start + Size(bs) == limit + 3 && ptr == start + Size(bs[..FitIndex(bs, n)]) + 3 < 256
    ensures Hfree(ram, start, limit, ptr).Freed? && HeapInv(Hfree(ram, start, limit, ptr).ram, start, limit, bs)
  {
    var region := (ptr, Carved(bs[FitIndex(bs, n)].dim, n)[0].dim);
    AfterAllocRegions(start, bs, n);
    hide Hfree, AfterAlloc, FitIndex, Carved, Regions, Size, Chain, InOwned, EndsInside, NoFreeNeighbours;
    var bs1 := HfreeExact(ram, start, limit, AfterAlloc(bs, n), region);
    LayoutUnique(start, bs1, bs);
  }

  lemma ReleaseIs(s: Vm.State, arg: RawArg, ptr: nat)
    requires arg.typ != ADDRESS && ptr < 256 && Vm.Content(s, Vm.Resolve(s, arg)) == Vm.Val(ptr)
    ensures Hfree(s.ram, s.proc.heapStart, s.proc.heapLimit, ptr).Freed? ==>
      Vm.Release(s, arg) == s.(ram := Hfree(s.ram, s.proc.heapStart, s.proc.heapLimit, ptr).ram)
  {
    hide Hfree, Vm.Resolve;
  }

  lemma AllocKeepsProc(s: Vm.State, place: RawArg, size: RawArg)
    ensures Vm.Alloc(s, place, size).proc == s.proc
  {
    hide Halloc, Vm.Deref, Vm.Resolve;
  }

  /** A freshly loaded process meets the premise of the run theorems: nothing is allocated and the
      blocks cover exactly 1003 bytes. */
  lemma LoadedIsSound(ram: seq<Byte>, f: Word, bytecode: seq<Byte>)
    requires |ram| == RAM_SIZE && f + Footprint(bytecode) <= MANAGED
    ensures var ram1 := LoadedRam(ram, f, bytecode);
      var p := LoadedProc(ram, f, bytecode);
      && HeapRuns.Sound(HeapState(ram1, {}), p.heapStart, p.heapLimit)
      && p.heapLimit + 3 - p.heapStart == 1003
  {
    var ram1 := LoadedRam(ram, f, bytecode);
    var p := LoadedProc(ram, f, bytecode);
    LayoutExact(f, |bytecode|, EntryOf(WithCode(ram, f, bytecode), f));
    LoadedHeap(ram, f, bytecode);
    hide LoadedProc, LoadedRam, HeapInv, Regions, EntryOf;
    RegionsOne(p.heapStart, Block(HEAP_SIZE, false));
    assert HeapInv(ram1, p.heapStart, p.heapLimit, [Block(HEAP_SIZE, false)]);
  }

  /** From loading on: every run of requests, releases and writes that ends with nothing allocated ends
      with the single free block of 1000 bytes that the loader wrote. */
  lemma {:induction false} LoadedRunToEmpty(ram: seq<Byte>, f: Word, bytecode: seq<Byte>, ops: seq<HeapRuns.Op>)
    requires |ram| == RAM_SIZE && f + Footprint(bytecode) <= MANAGED
    requires var ram1 := LoadedRam(ram, f, bytecode); var p := LoadedProc(ram, f, bytecode);
      && HeapRuns.AllAllowed(HeapState(ram1, {}), p.heapStart, p.heapLimit, ops)
      && HeapRuns.DoAll(HeapState(ram1, {}), p.heapStart, p.heapLimit, ops).live == {}
    ensures var ram1 := LoadedRam(ram, f, bytecode); var p := LoadedProc(ram, f, bytecode);
      HeapInv(HeapRuns.DoAll(HeapState(ram1, {}), p.heapStart, p.heapLimit, ops).ram, p.heapStart, p.heapLimit, [Block(1000, false)])
  {
    hide LoadedProc, LoadedRam, HeapInv, HeapRuns.DoAll, HeapRuns.AllAllowed, HeapRuns.Sound;
    var ram1 := LoadedRam(ram, f, bytecode);
    var p := LoadedProc(ram, f, bytecode);
    LoadedIsSound(ram, f, bytecode);
    HeapRuns.RunToEmpty(HeapState(ram1, {}), p.heapStart, p.heapLimit, ops);
  }

  /** Whether a loaded process can ever get a pointer that fits a cell: some run of its heap holds a region
      below address 256 iff its heap starts below 253. A compiled Brainfuck program's never does. */
  lemma {:induction false} UsablePointers(ram: seq<Byte>, f: Word, bytecode: seq<Byte>)
    requires |ram| == RAM_SIZE && f + Footprint(bytecode) <= MANAGED
    ensures var ram1 := LoadedRam(ram, f, bytecode); var p := LoadedProc(ram, f, bytecode);
      f + |bytecode| < 253 <==> CanHoldBelow(HeapState(ram1, {}), p.heapStart, p.heapLimit, 256)
  {
    var ram1 := LoadedRam(ram, f, bytecode);
    var p := LoadedProc(ram, f, bytecode);
    var h := HeapState(ram1, {});
    LayoutExact(f, |bytecode|, EntryOf(WithCode(ram, f, bytecode), f));
    LoadedIsSound(ram, f, bytecode);
    LoadedHeap(ram, f, bytecode);
    hide LoadedProc, LoadedRam, HeapInv, EntryOf, HeapRuns.DoAll, HeapRuns.AllAllowed, HeapRuns.Sound;
    if f + |bytecode| < 253 {
      OneByte(h, p.heapStart, p.heapLimit);
    } else if CanHoldBelow(h, p.heapStart, p.heapLimit, 256) {
      var ops, region :| HeapRuns.AllAllowed(h, p.heapStart, p.heapLimit, ops)
        && region in HeapRuns.DoAll(h, p.heapStart, p.heapLimit, ops).live && region.0 < 256;
      HeapRuns.RunKeeps(h, p.heapStart, p.heapLimit, ops);
      LiveAbove(HeapRuns.DoAll(h, p.heapStart, p.heapLimit, ops), p.heapStart, p.heapLimit, region);
    }
  }

  /** After some run, a region is held whose pointer is below `bound`. */
  ghost predicate CanHoldBelow(h: HeapState, start: nat, limit: nat, bound: nat) {
    exists ops, region :: HeapRuns.AllAllowed(h, start, limit, ops)
      && region in HeapRuns.DoAll(h, start, limit, ops).live && region.0 < bound
  }

  lemma LiveAbove(h: HeapState, start: nat, limit: nat, region: (nat, nat))
    requires HeapRuns.Sound(h, start, limit) && region in h.live
    ensures start + 3 <= region.0
  {
    hide HeapInv, Regions;
    var bs :| HeapInv(h.ram, start, limit, bs) && Regions(start, bs) == h.live;
    RegionsInside(start, bs);
  }

  /** The first request of a fresh heap gets its first payload byte. */
  lemma OneByte(h: HeapState, start: nat, limit: nat)
    requires HeapInv(h.ram, start, limit, [Block(HEAP_SIZE, false)]) && start < 253
    ensures CanHoldBelow(h, start, limit, 256)
  {
    hide Halloc, HeapInv, Regions, InOwned;
    var bs := [Block(HEAP_SIZE, false)];
    var op := HeapRuns.Alloc(1);
    assert Fits(bs[0], 1);
    HallocExact(h.ram, start, limit, bs, 1);
    assert FitIndex(bs, 1) == 0 && Size(bs[..0]) == 0;
    var h1 := HeapRuns.Do(h, start, limit, op);
    var r := Halloc(h.ram, start, limit, 1);
    var region := (r.ptr as nat, SizeAt(r.ram, r.ptr));
    assert [op][1..] == [] && HeapRuns.DoAll(h, start, limit, [op]) == HeapRuns.DoAll(h1, start, limit, [op][1..]) == h1;
    assert HeapRuns.AllAllowed(h, start, limit, [op]);
    assert region in HeapRuns.DoAll(h, start, limit, [op]).live && region.0 < 256;
  }
}
