/** HFREE, its inverse relation to HALLOC, and whole runs of the heap. */
module HeapRuns {
  import opened Bytes
  import opened Heap
  import opened HeapBlocks

  // ----- coalescing -----

  /** The walk of HFREE on blocks: a merge is tried again with the next neighbour. */
  function Merge(bs: seq<Block>): seq<Block>
    decreases |bs|
  {
    if |bs| < 2 then bs
    else if !bs[0].owned && !bs[1].owned then Merge([Merged(bs[0], bs[1])] + bs[2..])
    else [bs[0]] + Merge(bs[1..])
  }

  function Merged(a: Block, b: Block): Block { Block(a.dim + 3 + b.dim, false) }

  /** `k` is one of the two size bytes in the header of a free block. */
  predicate IsFreeSize(p: nat, bs: seq<Block>, k: nat)
    decreases |bs|
  {
    bs != [] && ((!bs[0].owned && (k == p || k == p + 1)) || IsFreeSize(p + 3 + bs[0].dim, bs[1..], k))
  }

  lemma MergedParts(p: nat, bs: seq<Block>)
    requires |bs| >= 2 && !bs[0].owned && !bs[1].owned
    ensures var m := [Merged(bs[0], bs[1])] + bs[2..];
      && Size(m) == Size(bs) && Regions(p, m) == Regions(p, bs)
      && (EndsInside(bs) ==> EndsInside(m))
      && forall k :: IsFreeSize(p, m, k) ==> IsFreeSize(p, bs, k)
  {
    var m := [Merged(bs[0], bs[1])] + bs[2..];
    assert m[1..] == bs[2..] == bs[1..][1..];
    assert Size(bs[1..]) == bs[1].dim + 3 + Size(bs[2..]);
    assert Regions(p + 3 + bs[0].dim, bs[1..]) == Regions(p + 3 + bs[0].dim + 3 + bs[1].dim, bs[2..]);
    forall k | IsFreeSize(p, m, k) ensures IsFreeSize(p, bs, k) {
      if k != p && k != p + 1 {
        assert IsFreeSize(p + 3 + m[0].dim, m[1..], k);
        assert IsFreeSize(p + 3 + bs[0].dim, bs[1..], k);
      }
    }
  }

  /** Merging keeps the total size and the allocated regions, and leaves no two free neighbours. */
  lemma {:induction false} MergeKeeps(p: nat, bs: seq<Block>)
    ensures Size(Merge(bs)) == Size(bs) && Regions(p, Merge(bs)) == Regions(p, bs)
    ensures NoFreeNeighbours(Merge(bs))
    ensures bs != [] ==> Merge(bs) != [] && Merge(bs)[0].owned == bs[0].owned
    ensures EndsInside(bs) ==> EndsInside(Merge(bs))
    decreases |bs|
  {
    hide IsFreeSize;
    if |bs| >= 2 {
      if !bs[0].owned && !bs[1].owned {
        MergedParts(p, bs);
        MergeKeeps(p, [Merged(bs[0], bs[1])] + bs[2..]);
      } else {
        var tail := Merge(bs[1..]);
        MergeKeeps(p + 3 + bs[0].dim, bs[1..]);
        assert ([bs[0]] + tail)[1..] == tail;
        NoFreeCons(bs[0], tail);
      }
    }
  }

  lemma NoFreeCons(b: Block, bs: seq<Block>)
    requires NoFreeNeighbours(bs) && (bs != [] ==> b.owned || bs[0].owned)
    ensures NoFreeNeighbours([b] + bs)
  {
    var r := [b] + bs;
    forall i | 0 <= i < |r| - 1 ensures r[i].owned || r[i + 1].owned {
      if i > 0 {
        assert r[i] == bs[i - 1] && r[i + 1] == bs[i - 1 + 1];
      }
    }
  }

  /** One merge in memory. */
  lemma MergeStep(ram: seq<Byte>, p: nat, bs: seq<Block>)
    requires |bs| >= 2 && !bs[0].owned && !bs[1].owned
    requires Chain(ram, p, bs) && p + Size(bs) <= |ram| < 0x1_0000
    ensures var dim := Merged(bs[0], bs[1]).dim;
      Chain(WithSize(ram, p, dim), p, [Merged(bs[0], bs[1])] + bs[2..])
  {
    var m := Merged(bs[0], bs[1]);
    assert bs[1..][1..] == bs[2..];
    assert Size(bs[1..]) == bs[1].dim + 3 + Size(bs[2..]);
    assert Chain(ram, p + 3 + m.dim, bs[2..]);
    SizeWritten(ram, p, m);
    var ram1 := WithSize(ram, p, m.dim);
    hide Chain, WithSize;
    ChainFrame(ram, ram1, p + 3 + m.dim, bs[2..]);
    SizeOne(m);
    ChainAdd(ram1, p, [m], bs[2..]);
  }

  lemma SizeWritten(ram: seq<Byte>, p: nat, b: Block)
    requires p + 2 < |ram| && b.dim < 0x1_0000 && ram[p + 2] == StatusOf(b)
    ensures var ram1 := WithSize(ram, p, b.dim);
      && Chain(ram1, p, [b]) && forall k :: 0 <= k < |ram| && k != p && k != p + 1 ==> ram1[k] == ram[k]
  {
    hide WithSize;
    SizeReadBack(ram, p, b.dim);
  }

  /** The in-place walk computes Merge. It changes only size bytes in headers of free blocks. */
  lemma {:induction false} CoalesceChain(ram: seq<Byte>, p: nat, limit: nat, bs: seq<Block>)
    requires Chain(ram, p, bs) && p + Size(bs) == limit + 3 <= |ram| < 0x1_0000 && EndsInside(bs)
    ensures Coalesce(ram, p, limit).Some?
    ensures var ram1 := Coalesce(ram, p, limit).value;
      && |ram1| == |ram| && Chain(ram1, p, Merge(bs))
      && forall k :: 0 <= k < |ram| && !IsFreeSize(p, bs, k) ==> ram1[k] == ram[k]
    decreases |bs|
  {
    SizeOfTail(bs);
    if |bs| == 1 {
      assert bs[1..] == [];
    } else if !bs[0].owned && !bs[1].owned {
      CoalesceMerges(ram, p, limit, bs);
    } else {
      CoalesceMoves(ram, p, limit, bs);
    }
  }

  lemma {:induction false} CoalesceMerges(ram: seq<Byte>, p: nat, limit: nat, bs: seq<Block>)
    requires Chain(ram, p, bs) && p + Size(bs) == limit + 3 <= |ram| < 0x1_0000 && EndsInside(bs)
    requires |bs| >= 2 && !bs[0].owned && !bs[1].owned
    ensures Coalesce(ram, p, limit).Some?
    ensures var ram1 := Coalesce(ram, p, limit).value;
      && |ram1| == |ram| && Chain(ram1, p, Merge(bs))
      && forall k :: 0 <= k < |ram| && !IsFreeSize(p, bs, k) ==> ram1[k] == ram[k]
    decreases |bs|, 0
  {
    hide Regions;
    SizeOfTail(bs);
    SizeOfTail(bs[1..]);
    MergedParts(p, bs);
    MergeStep(ram, p, bs);
    var dim := Merged(bs[0], bs[1]).dim;
    var ram0 := WithSize(ram, p, dim);
    TwoHeaders(ram, p, bs);
    MergeHere(ram, p, p + 3 + bs[0].dim, limit);
    SizeReadBack(ram, p, dim);
    FreeSizeHere(p, bs);
    hide *;
    CoalesceChain(ram0, p, limit, [Merged(bs[0], bs[1])] + bs[2..]);
  }

  /** The first two headers of a chain. */
  lemma TwoHeaders(ram: seq<Byte>, p: nat, bs: seq<Block>)
    requires |bs| >= 2 && Chain(ram, p, bs)
    ensures p + 2 < |ram| && DimAt(ram, p) == bs[0].dim && ram[p + 2] == StatusOf(bs[0])
    ensures var next := p + 3 + bs[0].dim;
      && next + 2 < |ram| && DimAt(ram, next) == bs[1].dim && ram[next + 2] == StatusOf(bs[1])
    ensures Size(bs) == bs[0].dim + 3 + Size(bs[1..])
  {
    assert bs[1..][0] == bs[1];
  }

  lemma FreeSizeHere(p: nat, bs: seq<Block>)
    requires bs != [] && !bs[0].owned
    ensures IsFreeSize(p, bs, p) && IsFreeSize(p, bs, p + 1)
  {
  }

  lemma {:induction false} CoalesceMoves(ram: seq<Byte>, p: nat, limit: nat, bs: seq<Block>)
    requires Chain(ram, p, bs) && p + Size(bs) == limit + 3 <= |ram| < 0x1_0000 && EndsInside(bs)
    requires |bs| >= 2 && (bs[0].owned || bs[1].owned)
    ensures Coalesce(ram, p, limit).Some?
    ensures var ram1 := Coalesce(ram, p, limit).value;
      && |ram1| == |ram| && Chain(ram1, p, Merge(bs))
      && forall k :: 0 <= k < |ram| && !IsFreeSize(p, bs, k) ==> ram1[k] == ram[k]
    decreases |bs|, 0
  {
    SizeOfTail(bs[1..]);
    var next := p + 3 + bs[0].dim;
    assert bs[1..][0] == bs[1] && Chain(ram, next, bs[1..]);
    CoalesceChain(ram, next, limit, bs[1..]);
    assert Coalesce(ram, p, limit) == Coalesce(ram, next, limit);
    var ram1 := Coalesce(ram, p, limit).value;
    forall k | p <= k < p + 3 ensures ram1[k] == ram[k] || (!bs[0].owned && k < p + 2) {
      FreeSizesAbove(next, bs[1..], k);
    }
    HeadKept(ram, ram1, p, limit, bs);
    assert ([bs[0]] + Merge(bs[1..]))[1..] == Merge(bs[1..]);
  }

  /** Size bytes of later headers lie above this header. */
  lemma {:induction false} FreeSizesAbove(p: nat, bs: seq<Block>, k: nat)
    ensures IsFreeSize(p, bs, k) ==> p <= k < p + Size(bs)
    decreases |bs|
  {
    if bs != [] { FreeSizesAbove(p + 3 + bs[0].dim, bs[1..], k); }
  }

  lemma HeadKept(ram: seq<Byte>, ram1: seq<Byte>, p: nat, limit: nat, bs: seq<Block>)
    requires bs != [] && p + 2 < |ram| == |ram1|
    requires forall k :: 0 <= k < |ram| && !IsFreeSize(p + 3 + bs[0].dim, bs[1..], k) ==> ram1[k] == ram[k]
    ensures ram1[p] == ram[p] && ram1[p + 1] == ram[p + 1] && ram1[p + 2] == ram[p + 2]
  {
    FreeSizesAbove(p + 3 + bs[0].dim, bs[1..], p);
    FreeSizesAbove(p + 3 + bs[0].dim, bs[1..], p + 1);
    FreeSizesAbove(p + 3 + bs[0].dim, bs[1..], p + 2);
  }

  lemma {:induction false} FreeSizeNotOwned(p: nat, bs: seq<Block>, k: nat)
    requires IsFreeSize(p, bs, k)
    ensures !InOwned(p, bs, k)
    decreases |bs|
  {
    if k >= p + 3 + bs[0].dim {
      FreeSizeNotOwned(p + 3 + bs[0].dim, bs[1..], k);
    } else {
      FreeSizesAbove(p + 3 + bs[0].dim, bs[1..], k);
    }
  }

  // ----- HFREE -----

  /** The block that holds an allocated region. */
  lemma {:induction false} RegionIndex(p: nat, bs: seq<Block>, region: (nat, nat)) returns (i: nat)
    requires region in Regions(p, bs)
    ensures i < |bs| && bs[i] == Block(region.1, true) && p + Size(bs[..i]) + 3 == region.0
    decreases |bs|
  {
    if bs[0].owned && region == (p + 3, bs[0].dim) {
      i := 0;
    } else {
      i := RegionIndex(p + 3 + bs[0].dim, bs[1..], region);
      assert bs[..i + 1][1..] == bs[1..][..i];
      assert Size(bs[..i + 1]) == bs[0].dim + 3 + Size(bs[1..][..i]);
      i := i + 1;
    }
  }

  /** The blocks with block `i` marked free, before merging. */
  function Released(bs: seq<Block>, i: nat): seq<Block>
    requires i < |bs|
  {
    bs[..i] + [Block(bs[i].dim, false)] + bs[i + 1..]
  }

  lemma ReleasedRegions(p: nat, bs: seq<Block>, i: nat)
    requires i < |bs| && bs[i].owned
    ensures Regions(p, Released(bs, i)) == Regions(p, bs) - {(p + Size(bs[..i]) + 3, bs[i].dim)}
    ensures Size(Released(bs, i)) == Size(bs) && (EndsInside(bs) ==> EndsInside(Released(bs, i)))
  {
    hide Regions, Size;
    var q := p + Size(bs[..i]);
    var free := Block(bs[i].dim, false);
    SizeOne(free);
    SizeOne(bs[i]);
    assert bs == bs[..i] + [bs[i]] + bs[i + 1..];
    RegionsSplit(p, bs, i, [free]);
    RegionsSplit(p, bs, i, [bs[i]]);
    RegionsOne(q, free);
    RegionsOne(q, bs[i]);
    RegionsInside(p, bs[..i]);
    RegionsInside(q + 3 + bs[i].dim, bs[i + 1..]);
    ReleasedSize(bs, i);
  }

  lemma ReleasedSize(bs: seq<Block>, i: nat)
    requires i < |bs|
    ensures Size(Released(bs, i)) == Size(bs) && (EndsInside(bs) ==> EndsInside(Released(bs, i)))
  {
    hide Size;
    var free := Block(bs[i].dim, false);
    SizeOne(free);
    SizeOne(bs[i]);
    assert bs == bs[..i] + [bs[i]] + bs[i + 1..];
    SizeAdd(bs[..i], [free]);
    SizeAdd(bs[..i] + [free], bs[i + 1..]);
    SizeAdd(bs[..i], [bs[i]]);
    SizeAdd(bs[..i] + [bs[i]], bs[i + 1..]);
  }

  /** Marking a block free in memory. */
  lemma ReleaseChain(ram: seq<Byte>, p: nat, bs: seq<Block>, i: nat)
    requires i < |bs| && Chain(ram, p, bs) && p + Size(bs) <= |ram|
    ensures var q := p + Size(bs[..i]);
      q + 2 < |ram| && Chain(ram[q + 2 := FREE], p, Released(bs, i))
  {
    hide Chain, Size;
    var q := p + Size(bs[..i]);
    SplitAt(ram, p, bs, i);
    var ram1: seq<Byte> := ram[q + 2 := FREE];
    SizeOne(Block(bs[i].dim, false));
    FreedHeader(ram, q, bs[i]);
    ReplaceBlock(ram, ram1, p, bs, i, [Block(bs[i].dim, false)]);
  }

  lemma FreedHeader(ram: seq<Byte>, q: nat, b: Block)
    requires Chain(ram, q, [b])
    ensures q + 2 < |ram| && Chain(ram[q + 2 := FREE], q, [Block(b.dim, false)])
  {
  }

  /** A status byte is not a size byte. */
  lemma {:induction false} StatusIsNotSize(p: nat, bs: seq<Block>, i: nat)
    requires i < |bs|
    ensures !IsFreeSize(p, bs, p + Size(bs[..i]) + 2)
    decreases |bs|
  {
    if i == 0 {
      FreeSizesAbove(p + 3 + bs[0].dim, bs[1..], p + 2);
    } else {
      assert bs[..i][1..] == bs[1..][..i - 1];
      StatusIsNotSize(p + 3 + bs[0].dim, bs[1..], i - 1);
    }
  }

  /** `k` lies outside the heap, or in an owned block other than that of `region`. */
  predicate Elsewhere(start: nat, limit: nat, bs: seq<Block>, region: (nat, nat), k: nat) {
    k < start || k >= limit + 3 || (InOwned(start, bs, k) && !(region.0 - 3 <= k < region.0 + region.1))
  }

  /** HFREE of an allocated region always succeeds: it takes exactly that region away, keeps the
      invariant (hence leaves no two free neighbours), and changes no byte of any other owned block
      and none outside the heap. A second HFREE of the same pointer throws. */
  lemma {:induction false} HfreeExact(ram: seq<Byte>, start: nat, limit: nat, bs: seq<Block>, region: (nat, nat))
      returns (bs1: seq<Block>)
    requires HeapInv(ram, start, limit, bs) && region in Regions(start, bs)
    ensures region.0 < 0x1_0000 && Hfree(ram, start, limit, region.0).Freed?
    ensures var ram1 := Hfree(ram, start, limit, region.0).ram;
      && HeapInv(ram1, start, limit, bs1)
      && Regions(start, bs1) == Regions(start, bs) - {region}
      && |ram1| == |ram|
      && (forall k :: 0 <= k < |ram| && Elsewhere(start, limit, bs, region, k) ==> ram1[k] == ram[k])
      && Hfree(ram1, start, limit, region.0).NotOwnedBlock?
  {
    hide Chain, Regions, Size, Coalesce, Merge, InOwned, IsFreeSize, NoFreeNeighbours;
    RegionsInside(start, bs);
    var i := RegionIndex(start, bs, region);
    var q := start + Size(bs[..i]);
    OwnedStatus(ram, start, bs, i);
    ReleaseChain(ram, start, bs, i);
    ReleasedRegions(start, bs, i);
    var free := Released(bs, i);
    var ram0: seq<Byte> := ram[q + 2 := FREE];
    CoalesceChain(ram0, start, limit, free);
    MergeKeeps(start, free);
    bs1 := Merge(free);
    var ram1 := Coalesce(ram0, start, limit).value;
    assert free[..i] == bs[..i];
    StatusIsNotSize(start, free, i);
    forall k | 0 <= k < |ram| && Elsewhere(start, limit, bs, region, k)
      ensures ram1[k] == ram[k]
    {
      if IsFreeSize(start, free, k) {
        FreeSizesAbove(start, free, k);
        FreeSizeNotOwned(start, free, k);
        ReleasedOwned(start, bs, i, k);
      }
    }
  }

  lemma OwnedStatus(ram: seq<Byte>, p: nat, bs: seq<Block>, i: nat)
    requires i < |bs| && Chain(ram, p, bs)
    ensures p + Size(bs[..i]) + 2 < |ram| && ram[p + Size(bs[..i]) + 2] == StatusOf(bs[i])
  {
    SplitAt(ram, p, bs, i);
  }

  /** Other blocks keep their owner. */
  lemma ReleasedOwned(p: nat, bs: seq<Block>, i: nat, k: nat)
    requires i < |bs| && InOwned(p, bs, k) && !(p + Size(bs[..i]) <= k < p + Size(bs[..i]) + 3 + bs[i].dim)
    ensures InOwned(p, Released(bs, i), k)
  {
    var free := Block(bs[i].dim, false);
    var q := p + Size(bs[..i]);
    SizeOne(free);
    SizeOne(bs[i]);
    assert bs == bs[..i] + ([bs[i]] + bs[i + 1..]);
    assert Released(bs, i) == bs[..i] + ([free] + bs[i + 1..]);
    OwnedAdd(p, bs[..i], [bs[i]] + bs[i + 1..], k);
    OwnedAdd(p, bs[..i], [free] + bs[i + 1..], k);
    OwnedAdd(q, [bs[i]], bs[i + 1..], k);
    OwnedAdd(q, [free], bs[i + 1..], k);
    NothingBelow(q, [bs[i]] + bs[i + 1..], k);
  }

  lemma {:induction false} FreeSizeIsHeader(p: nat, bs: seq<Block>, k: nat)
    requires IsFreeSize(p, bs, k)
    ensures OnHeader(p, bs, k)
    decreases |bs|
  {
    if !(!bs[0].owned && (k == p || k == p + 1)) { FreeSizeIsHeader(p + 3 + bs[0].dim, bs[1..], k); }
  }

  /** HFREE of an allocated region leaves a FREE status in front of it, and changes nothing from 2 bytes above
      the heap limit on. */
  lemma {:induction false} HfreeAbove(ram: seq<Byte>, start: nat, limit: nat, bs: seq<Block>, region: (nat, nat))
    requires HeapInv(ram, start, limit, bs) && region in Regions(start, bs)
    ensures 3 <= region.0 <= |ram| < 0x1_0000 && Hfree(ram, start, limit, region.0).Freed?
    ensures var ram1 := Hfree(ram, start, limit, region.0).ram;
      |ram1| == |ram| && ram1[region.0 - 1] == FREE && ram1[limit + 2..] == ram[limit + 2..]
  {
    hide Chain, Regions, Size, Coalesce, Merge, IsFreeSize, NoFreeNeighbours;
    RegionsInside(start, bs);
    var i := RegionIndex(start, bs, region);
    var q := start + Size(bs[..i]);
    OwnedStatus(ram, start, bs, i);
    ReleaseChain(ram, start, bs, i);
    ReleasedRegions(start, bs, i);
    var free := Released(bs, i);
    CoalesceChain(ram[q + 2 := FREE], start, limit, free);
    assert free[..i] == bs[..i];
    StatusIsNotSize(start, free, i);
    HeadersBelowLimit(start, limit, bs);
    forall k | limit + 2 <= k < |ram| ensures !IsFreeSize(start, free, k) {
      if IsFreeSize(start, free, k) {
        FreeSizeIsHeader(start, free, k);
        HeadersEnd(start, limit, free, k);
      }
    }
  }

  // ----- the layout is determined by what is allocated -----

  /** Two layouts of the same extent without free neighbours are equal as soon as they have the same
      allocated regions. */
  lemma {:induction false} LayoutUnique(p: nat, xs: seq<Block>, ys: seq<Block>)
    requires NoFreeNeighbours(xs) && NoFreeNeighbours(ys)
    requires Size(xs) == Size(ys) && Regions(p, xs) == Regions(p, ys)
    ensures xs == ys
    decreases |xs|
  {
    if xs != [] && ys != [] {
      HeadsEqual(p, xs, ys);
      var q := p + 3 + xs[0].dim;
      RegionsInside(q, xs[1..]);
      RegionsInside(q, ys[1..]);
      assert Regions(q, xs[1..]) == Regions(p, xs) - {(p + 3, xs[0].dim)};
      assert Regions(q, ys[1..]) == Regions(p, ys) - {(p + 3, ys[0].dim)};
      NoFreeTail(xs);
      NoFreeTail(ys);
      LayoutUnique(q, xs[1..], ys[1..]);
      assert xs == [xs[0]] + xs[1..] && ys == [ys[0]] + ys[1..];
    }
  }

  lemma NoFreeTail(bs: seq<Block>)
    requires NoFreeNeighbours(bs) && bs != []
    ensures NoFreeNeighbours(bs[1..])
  {
    forall i | 0 <= i < |bs[1..]| - 1 ensures bs[1..][i].owned || bs[1..][i + 1].owned {
      assert bs[i + 1].owned || bs[i + 1 + 1].owned;
    }
  }

  lemma HeadsEqual(p: nat, xs: seq<Block>, ys: seq<Block>)
    requires NoFreeNeighbours(xs) && NoFreeNeighbours(ys) && xs != [] && ys != []
    requires Size(xs) == Size(ys) && Regions(p, xs) == Regions(p, ys)
    ensures xs[0] == ys[0]
  {
    if xs[0].owned {
      OwnedHead(p, xs, ys);
    } else if ys[0].owned {
      OwnedHead(p, ys, xs);
    } else {
      FreeHead(p, xs, ys);
      FreeHead(p, ys, xs);
    }
  }

  lemma OwnedHead(p: nat, xs: seq<Block>, ys: seq<Block>)
    requires xs != [] && ys != [] && xs[0].owned && Regions(p, xs) == Regions(p, ys)
    ensures xs[0] == ys[0]
  {
    assert (p + 3, xs[0].dim) in Regions(p, ys);
    RegionsInside(p + 3 + ys[0].dim, ys[1..]);
  }

  /** A leading free block reaches to the first region or to the end, so it is not the longer one. */
  lemma FreeHead(p: nat, xs: seq<Block>, ys: seq<Block>)
    requires xs != [] && ys != [] && !xs[0].owned && !ys[0].owned && NoFreeNeighbours(xs)
    requires Size(xs) == Size(ys) && Regions(p, xs) == Regions(p, ys)
    ensures xs[0].dim >= ys[0].dim
  {
    if |xs| == 1 {
      assert xs[1..] == [];
    } else {
      var q := p + 3 + xs[0].dim;
      assert xs[0].owned || xs[0 + 1].owned;
      assert xs[1..][0] == xs[1];
      assert (q + 3, xs[1].dim) in Regions(q, xs[1..]);
      RegionsInside(p + 3 + ys[0].dim, ys[1..]);
    }
  }

  /** HFREE undoes HALLOC: the block layout is the one before the allocation. */
  lemma {:induction false} FreeUndoesAlloc(ram: seq<Byte>, start: nat, limit: nat, bs: seq<Block>, n: nat)
    requires HeapInv(ram, start, limit, bs) && Halloc(ram, start, limit, n).Allocated?
    ensures var r := Halloc(ram, start, limit, n);
      var f := Hfree(r.ram, start, limit, r.ptr);
      f.Freed? && HeapInv(f.ram, start, limit, bs)
  {
    HallocExact(ram, start, limit, bs, n);
    var r := Halloc(ram, start, limit, n);
    var region := (r.ptr, Carved(bs[FitIndex(bs, n)].dim, n)[0].dim);
    hide Carved, Halloc, Hfree, Regions, Chain, Size, AfterAlloc, InOwned, FitIndex;
    var bs1 := HfreeExact(r.ram, start, limit, AfterAlloc(bs, n), region);
    LayoutUnique(start, bs1, bs);
  }

  /** With nothing allocated, the heap is one free block again. */
  lemma {:induction false} AllFreed(ram: seq<Byte>, start: nat, limit: nat, bs: seq<Block>)
    requires HeapInv(ram, start, limit, bs) && Regions(start, bs) == {}
    ensures limit >= start && bs == [Block(limit - start, false)]
  {
    SizeOfTail(bs);
    var one := [Block(Size(bs) - 3, false)];
    SizeOne(one[0]);
    RegionsOne(start, one[0]);
    LayoutUnique(start, bs, one);
  }

  // ----- whole runs -----

  /** A program's dealings with the heap: requests, releases, and writes of bytes. */
  datatype Op = Alloc(n: nat) | Release(region: (nat, nat)) | Poke(addr: nat, value: Byte)

  /** Memory, and the regions that the program holds. */
  datatype HeapState = HeapState(ram: seq<Byte>, live: set<(nat, nat)>)

  /** What a correct program does: it frees what it holds and writes into what it holds. */
  ghost predicate Allowed(h: HeapState, op: Op) {
    match op
    case Alloc(_) => true
    case Release(region) => region in h.live
    case Poke(addr, _) => exists r :: r in h.live && r.0 <= addr < r.0 + r.1
  }

  /** The size of the block at `ptr`, as its header says. */
  function SizeAt(ram: seq<Byte>, ptr: nat): nat {
    if 3 <= ptr && ptr - 1 < |ram| then DimAt(ram, ptr - 3) else 0
  }

  /** One operation; a HALLOC that overflows changes nothing. */
  function Do(h: HeapState, start: nat, limit: nat, op: Op): HeapState {
    match op
    case Alloc(n) =>
      (match Halloc(h.ram, start, limit, n)
       case Allocated(ram1, ptr) => HeapState(ram1, h.live + {(ptr as nat, SizeAt(ram1, ptr))})
       case _ => h)
    case Release(region) =>
      (match Hfree(h.ram, start, limit, Wrap16(region.0))
       case Freed(ram1) => HeapState(ram1, h.live - {region})
       case _ => h)
    case Poke(addr, value) => if addr < |h.ram| then h.(ram := h.ram[addr := value]) else h
  }

  /** The blocks in memory are well formed, and hold exactly the live regions. */
  ghost predicate Sound(h: HeapState, start: nat, limit: nat) {
    exists bs :: HeapInv(h.ram, start, limit, bs) && Regions(start, bs) == h.live
  }

  lemma AllocKeeps(h: HeapState, start: nat, limit: nat, n: nat, ram1: seq<Byte>, ptr: Word)
    requires Sound(h, start, limit) && Halloc(h.ram, start, limit, n) == Allocated(ram1, ptr)
    ensures Sound(HeapState(ram1, h.live + {(ptr as nat, SizeAt(ram1, ptr))}), start, limit)
  {
    hide Regions, Chain, Size, AfterAlloc, InOwned, FitIndex, FirstFit, Carve, Halloc, NoFreeNeighbours, EndsInside, SizeAt;
    var bs :| HeapInv(h.ram, start, limit, bs) && Regions(start, bs) == h.live;
    HallocExact(h.ram, start, limit, bs, n);
    CarvedHeader(ram1, start, bs, n);
    assert HeapInv(ram1, start, limit, AfterAlloc(bs, n));
  }

  /** The header of the block given out tells its size. */
  lemma CarvedHeader(ram: seq<Byte>, p: nat, bs: seq<Block>, n: nat)
    requires FitIndex(bs, n) < |bs| && Chain(ram, p, AfterAlloc(bs, n))
    ensures SizeAt(ram, p + Size(bs[..FitIndex(bs, n)]) + 3) == Carved(bs[FitIndex(bs, n)].dim, n)[0].dim
  {
    var i := FitIndex(bs, n);
    CarvedShape(bs[i].dim, n);
    var after := AfterAlloc(bs, n);
    assert after[..i] == bs[..i] && after[i] == Carved(bs[i].dim, n)[0];
    hide Carved, AfterAlloc, FitIndex, Size;
    SplitAt(ram, p, after, i);
    HeaderSize(ram, p + Size(bs[..i]), after[i]);
  }

  lemma HeaderSize(ram: seq<Byte>, q: nat, b: Block)
    requires Chain(ram, q, [b])
    ensures SizeAt(ram, q + 3) == b.dim
  {
  }

  lemma ReleaseKeeps(h: HeapState, start: nat, limit: nat, region: (nat, nat))
    requires Sound(h, start, limit) && region in h.live
    ensures Sound(Do(h, start, limit, Release(region)), start, limit)
    ensures Do(h, start, limit, Release(region)).live == h.live - {region}
  {
    hide Regions, Chain, Size, InOwned, Hfree, Halloc, NoFreeNeighbours, EndsInside;
    var bs :| HeapInv(h.ram, start, limit, bs) && Regions(start, bs) == h.live;
    var bs1 := HfreeExact(h.ram, start, limit, bs, region);
    assert HeapInv(Hfree(h.ram, start, limit, region.0).ram, start, limit, bs1);
  }

  /** Writing into an allocated payload leaves every header alone. */
  lemma PokeKeeps(h: HeapState, start: nat, limit: nat, addr: nat, value: Byte)
    requires Sound(h, start, limit) && Allowed(h, Poke(addr, value))
    ensures Sound(Do(h, start, limit, Poke(addr, value)), start, limit)
  {
    hide Regions, InOwned, NoFreeNeighbours, EndsInside;
    var bs :| HeapInv(h.ram, start, limit, bs) && Regions(start, bs) == h.live;
    var r :| r in h.live && r.0 <= addr < r.0 + r.1;
    RegionsInside(start, bs);
    var i := RegionIndex(start, bs, r);
    hide Chain, Size, Wrap16;
    PokeChain(h.ram, start, bs, i, addr, value);
    assert HeapInv(h.ram[addr := value], start, limit, bs);
  }

  lemma PokeChain(ram: seq<Byte>, p: nat, bs: seq<Block>, i: nat, addr: nat, value: Byte)
    requires i < |bs| && Chain(ram, p, bs) && p + Size(bs) <= |ram|
    requires p + Size(bs[..i]) + 3 <= addr < p + Size(bs[..i]) + 3 + bs[i].dim
    ensures addr < |ram| && Chain(ram[addr := value], p, bs)
  {
    hide *;
    SplitAt(ram, p, bs, i);
    SizeOne(bs[i]);
    PokedHeader(ram, p + Size(bs[..i]), bs[i], addr, value);
    ReplaceBlock(ram, ram[addr := value], p, bs, i, [bs[i]]);
    assert bs == bs[..i] + [bs[i]] + bs[i + 1..];
  }

  lemma PokedHeader(ram: seq<Byte>, q: nat, b: Block, addr: nat, value: Byte)
    requires Chain(ram, q, [b]) && q + 3 <= addr < |ram|
    ensures Chain(ram[addr := value], q, [b])
  {
  }

  function DoAll(h: HeapState, start: nat, limit: nat, ops: seq<Op>): HeapState
    decreases |ops|
  {
    if ops == [] then h else DoAll(Do(h, start, limit, ops[0]), start, limit, ops[1..])
  }

  ghost predicate AllAllowed(h: HeapState, start: nat, limit: nat, ops: seq<Op>)
    decreases |ops|
  {
    ops == [] || (Allowed(h, ops[0]) && AllAllowed(Do(h, start, limit, ops[0]), start, limit, ops[1..]))
  }

  /** Over every run of HALLOC, HFREE of held pointers and writes into held payloads, the headers keep
      tiling the heap exactly and describe exactly the regions that the program holds. */
  lemma {:induction false} RunKeeps(h: HeapState, start: nat, limit: nat, ops: seq<Op>)
    requires Sound(h, start, limit) && AllAllowed(h, start, limit, ops)
    ensures Sound(DoAll(h, start, limit, ops), start, limit)
    decreases |ops|
  {
    hide Sound, Do, Allowed;
    if ops != [] {
      DoKeeps(h, start, limit, ops[0]);
      RunKeeps(Do(h, start, limit, ops[0]), start, limit, ops[1..]);
    }
  }

  lemma DoKeeps(h: HeapState, start: nat, limit: nat, op: Op)
    requires Sound(h, start, limit) && Allowed(h, op)
    ensures Sound(Do(h, start, limit, op), start, limit)
  {
    hide Sound, Halloc, Hfree, SizeAt;
    match op
    case Alloc(n) =>
      var r := Halloc(h.ram, start, limit, n);
      if r.Allocated? { AllocKeeps(h, start, limit, n, r.ram, r.ptr); }
    case Release(region) => ReleaseKeeps(h, start, limit, region);
    case Poke(addr, value) => PokeKeeps(h, start, limit, addr, value);
  }

  /** Live regions never overlap each other or a header, at any point of a run. */
  lemma {:induction false} LiveDisjoint(p: nat, bs: seq<Block>, r: (nat, nat), q: (nat, nat))
    requires r in Regions(p, bs) && q in Regions(p, bs) && r != q
    ensures r.0 + r.1 + 3 <= q.0 || q.0 + q.1 + 3 <= r.0
    decreases |bs|
  {
    var next := p + 3 + bs[0].dim;
    RegionsInside(next, bs[1..]);
    if r in Regions(next, bs[1..]) && q in Regions(next, bs[1..]) {
      LiveDisjoint(next, bs[1..], r, q);
    }
  }

  // ----- data -----

  /** Payload bytes belong to an owned block. */
  lemma {:induction false} RegionIsOwned(p: nat, bs: seq<Block>, r: (nat, nat), k: nat)
    requires r in Regions(p, bs) && r.0 <= k < r.0 + r.1
    ensures InOwned(p, bs, k)
    decreases |bs|
  {
    var next := p + 3 + bs[0].dim;
    RegionsInside(next, bs[1..]);
    if r in Regions(next, bs[1..]) { RegionIsOwned(next, bs[1..], r, k); }
  }

  /** The value last written to `addr`, which holds `v` before. */
  function Written(ops: seq<Op>, addr: nat, v: Byte): Byte
    decreases |ops|
  {
    if ops == [] then v
    else Written(ops[1..], addr, if ops[0].Poke? && ops[0].addr == addr then ops[0].value else v)
  }

  lemma DoKeepsData(h: HeapState, start: nat, limit: nat, op: Op, region: (nat, nat), addr: nat)
    requires Sound(h, start, limit) && Allowed(h, op) && op != Release(region)
    requires region in h.live && region.0 <= addr < region.0 + region.1 && addr < |h.ram|
    ensures var h1 := Do(h, start, limit, op);
      && region in h1.live && |h1.ram| == |h.ram|
      && h1.ram[addr] == Written([op], addr, h.ram[addr])
  {
    hide Regions, Chain, Size, AfterAlloc, InOwned, FitIndex, Halloc, Hfree, NoFreeNeighbours, EndsInside, SizeAt, Carved;
    var bs :| HeapInv(h.ram, start, limit, bs) && Regions(start, bs) == h.live;
    RegionIsOwned(start, bs, region, addr);
    match op
    case Alloc(n) => if Halloc(h.ram, start, limit, n).Allocated? { HallocFrame(h.ram, start, limit, bs, n); }
    case Release(other) =>
      LiveDisjoint(start, bs, region, other);
      var bs1 := HfreeExact(h.ram, start, limit, bs, other);
    case Poke(_, _) =>
  }

  lemma LiveInMemory(h: HeapState, start: nat, limit: nat, region: (nat, nat), addr: nat)
    requires Sound(h, start, limit) && region in h.live && addr < region.0 + region.1
    ensures addr < |h.ram|
  {
    hide Regions, Chain, NoFreeNeighbours, EndsInside;
    var bs :| HeapInv(h.ram, start, limit, bs) && Regions(start, bs) == h.live;
    RegionsInside(start, bs);
  }

  /** Data survive: over every run that does not release a held region, each of its bytes holds what the
      program last wrote there, whatever is requested, released and written elsewhere meanwhile. */
  lemma {:induction false} RunKeepsData(h: HeapState, start: nat, limit: nat, ops: seq<Op>, region: (nat, nat), addr: nat)
    requires Sound(h, start, limit) && AllAllowed(h, start, limit, ops) && Release(region) !in ops
    requires region in h.live && region.0 <= addr < region.0 + region.1
    ensures addr < |h.ram|
    ensures var h1 := DoAll(h, start, limit, ops);
      && region in h1.live && |h1.ram| == |h.ram| && h1.ram[addr] == Written(ops, addr, h.ram[addr])
    decreases |ops|
  {
    hide Sound, Do, Allowed;
    LiveInMemory(h, start, limit, region, addr);
    if ops != [] {
      assert ops[0] in ops;
      DoKeeps(h, start, limit, ops[0]);
      DoKeepsData(h, start, limit, ops[0], region, addr);
      RunKeepsData(Do(h, start, limit, ops[0]), start, limit, ops[1..], region, addr);
      assert [ops[0]][1..] == [];
    }
  }

  /** A run that gives back everything it took, in any order, ends with the heap as one free block. */
  lemma {:induction false} RunToEmpty(h: HeapState, start: nat, limit: nat, ops: seq<Op>)
    requires Sound(h, start, limit) && AllAllowed(h, start, limit, ops)
    requires DoAll(h, start, limit, ops).live == {}
    ensures limit >= start && HeapInv(DoAll(h, start, limit, ops).ram, start, limit, [Block(limit - start, false)])
  {
    hide HeapInv, DoAll, AllAllowed;
    RunKeeps(h, start, limit, ops);
    var ram := DoAll(h, start, limit, ops).ram;
    var bs :| HeapInv(ram, start, limit, bs) && Regions(start, bs) == {};
    AllFreed(ram, start, limit, bs);
  }
}
