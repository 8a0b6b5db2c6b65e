/** The headers of the heap byte by byte: what loading, HALLOC and HFREE write. */
module HeapBytes {
  import opened Bytes
  import opened Heap
  import opened HeapBlocks
  import FreeList
  import Loader

  /** Big-endian size, then 0 for free or 1 for owned. */
  function HeaderBytes(dim: Word, owned: bool): seq<Byte> { [dim / 256, dim % 256, if owned then 1 else 0] }

  lemma HeaderIs(ram: seq<Byte>, p: nat, dim: Word, status: Byte)
    requires p + 2 < |ram|
    ensures WithHeader(ram, p, dim, status)[p..p + 3] == [dim / 256, dim % 256, status]
    ensures forall k :: 0 <= k < |ram| && !(p <= k < p + 3) ==> WithHeader(ram, p, dim, status)[k] == ram[k]
  {
  }

  /** HALLOC of `n` bytes: it overflows iff every block is owned or smaller than `n`. Otherwise it takes the first
      block that is neither. The pointer is behind that block's header, which becomes an owned header of `n` bytes,
      with a free header of what is left behind them, when the block has more than `n + 3` bytes; and an owned header of
      the whole block otherwise. No other byte changes. */
  lemma {:induction false} HallocWrites(ram: seq<Byte>, start: nat, limit: nat, bs: seq<Block>, n: nat)
    requires HeapInv(ram, start, limit, bs)
    ensures Halloc(ram, start, limit, n).HeapOverflow? <==> forall i :: 0 <= i < |bs| ==> bs[i].owned || bs[i].dim < n
    ensures Halloc(ram, start, limit, n).Allocated? ==>
      var r := Halloc(ram, start, limit, n);
      exists i: nat :: First(bs, n, i) && r.ptr == start + Size(bs[..i]) + 3 && Writes(ram, r.ram, r.ptr, bs[i].dim, n)
  {
    hide Carve, Chain, Regions, Size, FirstFit, FitIndex, NoFreeNeighbours, Carved, Writes;
    HallocExact(ram, start, limit, bs, n);
    FirstFitChain(ram, start, limit, bs, n);
    var i := FitIndex(bs, n);
    if i < |bs| {
      FoundInside(ram, start, limit, n);
      SplitAt(ram, start, bs, i);
      HeadersBelowLimit(start, limit, bs);
      var q := start + Size(bs[..i]);
      ChainHead(ram, q, bs[i]);
      Loader.Untruncated(q + 3);
      CarveWrites(ram, q, n);
      assert First(bs, n, i);
    }
  }

  /** The first block that is free and large enough. */
  predicate First(bs: seq<Block>, n: nat, i: nat) {
    && i < |bs| && !bs[i].owned && bs[i].dim >= n
    && forall j :: 0 <= j < i ==> bs[j].owned || bs[j].dim < n
  }

  /** The bytes that change when `n` bytes are given out at `ptr` in a block of `dim`. */
  predicate Writes(ram: seq<Byte>, ram1: seq<Byte>, ptr: nat, dim: nat, n: nat) {
    && |ram1| == |ram| && 3 <= ptr <= |ram| && dim < 65536
    && if dim > n + 3 then
         && ptr + n + 3 <= |ram|
         && ram1[ptr - 3..ptr] == HeaderBytes(n, true)
         && ram1[ptr + n..ptr + n + 3] == HeaderBytes(dim - n - 3, false)
         && forall k :: 0 <= k < |ram| && !(ptr - 3 <= k < ptr) && !(ptr + n <= k < ptr + n + 3) ==> ram1[k] == ram[k]
       else
         && ram1[ptr - 3..ptr] == HeaderBytes(dim, true)
         && forall k :: 0 <= k < |ram| && !(ptr - 3 <= k < ptr) ==> ram1[k] == ram[k]
  }

  lemma ChainHead(ram: seq<Byte>, p: nat, b: Block)
    requires Chain(ram, p, [b])
    ensures p + 2 < |ram| && DimAt(ram, p) == b.dim
  {
  }

  lemma CarveWrites(ram: seq<Byte>, p: nat, n: nat)
    requires p + 2 < |ram| && DimAt(ram, p) >= n && Carve(ram, p, n).Some?
    ensures Writes(ram, Carve(ram, p, n).value, p + 3, DimAt(ram, p), n)
  {
    hide WithHeader, DimAt;
    var dim := DimAt(ram, p);
    if dim > n + 3 {
      var rest: nat := dim - 3 - n;
      HeaderIs(ram, p + 3 + n, rest, 0);
      var ram0 := WithHeader(ram, p + 3 + n, rest, FREE);
      HeaderIs(ram0, p, n, 1);
      var ram1 := WithHeader(ram0, p, n, OWNED);
      assert ram1[p + 3 + n..p + 3 + n + 3] == ram0[p + 3 + n..p + 3 + n + 3];
    } else {
      HeaderIs(ram, p, dim, 1);
    }
  }

  /** HFREE throws iff the status byte in front of the pointer is not 1. Otherwise the walk that joins free blocks
      starts from memory in which that byte is 0. */
  lemma HfreeReads(ram: seq<Byte>, start: nat, limit: nat, ptr: nat)
    requires 3 <= ptr <= |ram| && ptr < 65536
    ensures Hfree(ram, start, limit, ptr).NotOwnedBlock? <==> ram[ptr - 1] != 1
    ensures ram[ptr - 1] == 1 ==>
      Hfree(ram, start, limit, ptr) == match Coalesce(ram[ptr - 1 := 0], start, limit)
        case None => HfreeCorrupt
        case Some(ram1) => Freed(ram1)
  {
    hide Coalesce;
    Loader.Untruncated(ptr - 3);
  }

  /** The constants of a process: 1000 bytes of heap and 1000 of stack behind the code, in 59903 managed bytes. */
  lemma LayoutNumbers(base: nat, size: nat, entry: Word, bytes: seq<Byte>)
    requires base + size + 2000 <= 59903
    ensures FreeList.MANAGED == 59903 && FreeList.RAM_SIZE == 64000 && Loader.Footprint(bytes) == |bytes| + 2000
    ensures var p := Loader.Layout(base, size, entry);
      && p.firstSector == base && p.memory == size + 2000 && p.pc == (base + entry) % 65536
      && p.lastCode == p.heapStart == base + size
      && p.heapLimit == p.stackLimit == base + size + 1000 && p.sp == base + size + 2000
  {
    Loader.LayoutExact(base, size, entry);
  }

  /** Loading writes the code and, right behind it, a free header of 1000 bytes. */
  lemma LoadedBytes(ram: seq<Byte>, f: nat, bytes: seq<Byte>)
    requires f + |bytes| + 3 <= |ram|
    ensures var ram1 := Loader.LoadedRam(ram, f, bytes); var p := f + |bytes|;
      && |ram1| == |ram| && ram1[f..p] == bytes && ram1[p..p + 3] == [3, 232, 0]
      && forall k :: 0 <= k < |ram| && !(f <= k < p + 3) ==> ram1[k] == ram[k]
  {
  }
}
