/** The heap as a sequence of blocks, and what HALLOC and HFREE do to it. */
module HeapBlocks {
  import opened Bytes
  import opened Heap

  datatype Block = Block(dim: nat, owned: bool)

  function StatusOf(b: Block): Byte { if b.owned then OWNED else FREE }

  /** The bytes that a stretch of blocks takes, headers included. */
  function Size(bs: seq<Block>): nat {
    if bs == [] then 0 else bs[0].dim + 3 + Size(bs[1..])
  }

  /** Memory from `p` on parses as the headers of `bs`, one after the other. */
  predicate Chain(ram: seq<Byte>, p: nat, bs: seq<Block>)
    decreases |bs|
  {
    bs == [] ||
    (p + 2 < |ram| && DimAt(ram, p) == bs[0].dim && ram[p + 2] == StatusOf(bs[0])
     && Chain(ram, p + 3 + bs[0].dim, bs[1..]))
  }

  predicate NoFreeNeighbours(bs: seq<Block>) {
    forall i :: 0 <= i < |bs| - 1 ==> bs[i].owned || bs[i + 1].owned
  }

  /** The last block is not empty, so that every header lies below the heap limit. */
  predicate EndsInside(bs: seq<Block>) { bs != [] && bs[|bs| - 1].dim > 0 }

  /** The allocated payloads, as (address, size). */
  function Regions(p: nat, bs: seq<Block>): set<(nat, nat)>
    decreases |bs|
  {
    if bs == [] then {}
    else (if bs[0].owned then {(p + 3, bs[0].dim)} else {}) + Regions(p + 3 + bs[0].dim, bs[1..])
  }

  /** `k` is a byte of an OWNED block, header or payload. */
  predicate InOwned(p: nat, bs: seq<Block>, k: nat)
    decreases |bs|
  {
    bs != [] &&
    if k < p + 3 + bs[0].dim then p <= k && bs[0].owned else InOwned(p + 3 + bs[0].dim, bs[1..], k)
  }

  // ----- chains -----

  lemma {:induction false} SizeAdd(xs: seq<Block>, ys: seq<Block>)
    ensures Size(xs + ys) == Size(xs) + Size(ys)
  {
    if xs == [] {
      assert xs + ys == ys;
    } else {
      assert (xs + ys)[1..] == xs[1..] + ys;
      SizeAdd(xs[1..], ys);
    }
  }

  lemma {:induction false} ChainAdd(ram: seq<Byte>, p: nat, xs: seq<Block>, ys: seq<Block>)
    ensures Chain(ram, p, xs + ys) <==> Chain(ram, p, xs) && Chain(ram, p + Size(xs), ys)
    decreases |xs|
  {
    if xs == [] {
      assert xs + ys == ys;
    } else {
      assert (xs + ys)[1..] == xs[1..] + ys;
      ChainAdd(ram, p + 3 + xs[0].dim, xs[1..], ys);
    }
  }

  lemma {:induction false} RegionsAdd(p: nat, xs: seq<Block>, ys: seq<Block>)
    ensures Regions(p, xs + ys) == Regions(p, xs) + Regions(p + Size(xs), ys)
    decreases |xs|
  {
    if xs == [] {
      assert xs + ys == ys;
    } else {
      assert (xs + ys)[1..] == xs[1..] + ys;
      RegionsAdd(p + 3 + xs[0].dim, xs[1..], ys);
    }
  }

  lemma {:induction false} OwnedAdd(p: nat, xs: seq<Block>, ys: seq<Block>, k: nat)
    ensures InOwned(p, xs + ys, k) <==> if k < p + Size(xs) then InOwned(p, xs, k) else InOwned(p + Size(xs), ys, k)
    decreases |xs|
  {
    if xs == [] {
      assert xs + ys == ys;
      NothingBelow(p, ys, k);
    } else {
      assert (xs + ys)[1..] == xs[1..] + ys;
      OwnedAdd(p + 3 + xs[0].dim, xs[1..], ys, k);
    }
  }

  lemma {:induction false} NothingBelow(p: nat, bs: seq<Block>, k: nat)
    ensures k < p ==> !InOwned(p, bs, k)
  {
  }

  lemma {:induction false} RegionsInside(p: nat, bs: seq<Block>)
    ensures forall r :: r in Regions(p, bs) ==> p + 3 <= r.0 && r.0 + r.1 <= p + Size(bs)
    decreases |bs|
  {
    if bs != [] { RegionsInside(p + 3 + bs[0].dim, bs[1..]); }
  }

  /** Memory that agrees on the extent of a chain holds the same chain. */
  lemma {:induction false} ChainFrame(ram: seq<Byte>, ram1: seq<Byte>, p: nat, bs: seq<Block>)
    requires Chain(ram, p, bs) && |ram1| == |ram| && p + Size(bs) <= |ram|
    requires forall k :: p <= k < p + Size(bs) ==> ram1[k] == ram[k]
    ensures Chain(ram1, p, bs)
    decreases |bs|
  {
    if bs != [] { ChainFrame(ram, ram1, p + 3 + bs[0].dim, bs[1..]); }
  }

  /** A chain is determined by memory and its size. */
  lemma {:induction false} ChainUnique(ram: seq<Byte>, p: nat, xs: seq<Block>, ys: seq<Block>)
    requires Chain(ram, p, xs) && Chain(ram, p, ys) && Size(xs) == Size(ys)
    ensures xs == ys
    decreases |xs|
  {
    if xs != [] && ys != [] {
      assert StatusOf(xs[0]) == StatusOf(ys[0]);
      ChainUnique(ram, p + 3 + xs[0].dim, xs[1..], ys[1..]);
      assert xs == [xs[0]] + xs[1..] && ys == [ys[0]] + ys[1..];
    }
  }

  /** Writing one header. */
  lemma HeaderWritten(ram: seq<Byte>, p: nat, b: Block)
    requires p + 2 < |ram| && b.dim < 0x1_0000
    ensures var ram1 := WithHeader(ram, p, b.dim, StatusOf(b));
      && Chain(ram1, p, [b])
      && forall k :: 0 <= k < |ram| && !(p <= k < p + 3) ==> ram1[k] == ram[k]
  {
    JoinSplit(b.dim);
  }

  /** `k` is a byte of a header. */
  predicate OnHeader(p: nat, bs: seq<Block>, k: nat)
    decreases |bs|
  {
    bs != [] && (p <= k < p + 3 || OnHeader(p + 3 + bs[0].dim, bs[1..], k))
  }

  /** A chain depends on its header bytes only. */
  lemma {:induction false} ChainOnHeaders(ram: seq<Byte>, ram1: seq<Byte>, p: nat, bs: seq<Block>)
    requires Chain(ram, p, bs) && |ram1| == |ram|
    requires forall k :: 0 <= k < |ram| && OnHeader(p, bs, k) ==> ram1[k] == ram[k]
    ensures Chain(ram1, p, bs)
    decreases |bs|
  {
    if bs != [] {
      assert OnHeader(p, bs, p) && OnHeader(p, bs, p + 1) && OnHeader(p, bs, p + 2);
      ChainOnHeaders(ram, ram1, p + 3 + bs[0].dim, bs[1..]);
    }
  }

  lemma {:induction false} HeadersFrom(p: nat, bs: seq<Block>, k: nat)
    requires OnHeader(p, bs, k)
    ensures p <= k < p + Size(bs)
    decreases |bs|
  {
    if !(p <= k < p + 3) { HeadersFrom(p + 3 + bs[0].dim, bs[1..], k); }
  }

  /** Headers end one byte above the heap limit: the last byte of the chain is payload. */
  lemma {:induction false} HeadersEnd(p: nat, limit: nat, bs: seq<Block>, k: nat)
    requires EndsInside(bs) && p + Size(bs) == limit + 3 && OnHeader(p, bs, k)
    ensures k <= limit + 1
    decreases |bs|
  {
    SizeOfTail(bs);
    if !(p <= k < p + 3) {
      if |bs| > 1 { HeadersEnd(p + 3 + bs[0].dim, limit, bs[1..], k); }
    }
  }

  /** Payload bytes are not header bytes. */
  lemma {:induction false} PayloadIsNoHeader(p: nat, bs: seq<Block>, r: (nat, nat), k: nat)
    requires r in Regions(p, bs) && r.0 <= k < r.0 + r.1
    ensures !OnHeader(p, bs, k)
    decreases |bs|
  {
    var next := p + 3 + bs[0].dim;
    RegionsInside(next, bs[1..]);
    if r in Regions(next, bs[1..]) {
      PayloadIsNoHeader(next, bs[1..], r, k);
    } else if OnHeader(next, bs[1..], k) {
      HeadersFrom(next, bs[1..], k);
    }
  }

  // ----- the invariant -----

  /** The block chain tiles the heap exactly; no two free blocks are adjacent. */
  ghost predicate HeapInv(ram: seq<Byte>, start: nat, limit: nat, bs: seq<Block>) {
    && Chain(ram, start, bs)
    && start + Size(bs) == limit + 3 && limit + 3 <= |ram| && |ram| < 0x1_0000
    && NoFreeNeighbours(bs) && EndsInside(bs)
  }

  /** Every header lies below the limit, so a walk that stops at the limit sees every block. */
  lemma {:induction false} HeadersBelowLimit(p: nat, limit: nat, bs: seq<Block>)
    requires EndsInside(bs) && p + Size(bs) == limit + 3
    ensures forall i :: 0 <= i < |bs| ==> p + Size(bs[..i]) < limit
  {
    forall i | 0 <= i < |bs| ensures p + Size(bs[..i]) < limit {
      assert bs == bs[..i] + bs[i..];
      SizeAdd(bs[..i], bs[i..]);
      SizeOfTail(bs[i..]);
    }
  }

  lemma {:induction false} SizeOfTail(bs: seq<Block>)
    requires EndsInside(bs)
    ensures Size(bs) > 3
  {
    if |bs| > 1 { SizeOfTail(bs[1..]); }
  }

  // ----- HALLOC -----

  predicate Fits(b: Block, n: nat) { !b.owned && b.dim >= n }

  /** The first free block that is large enough, or the number of blocks. */
  function FitIndex(bs: seq<Block>, n: nat): (i: nat)
    ensures i <= |bs|
    ensures i < |bs| ==> Fits(bs[i], n)
    ensures forall j :: 0 <= j < i ==> !Fits(bs[j], n)
  {
    if bs == [] || Fits(bs[0], n) then 0 else 1 + FitIndex(bs[1..], n)
  }

  /** The one or two blocks that replace a free block of `dim` bytes. */
  function Carved(dim: nat, n: nat): seq<Block>
    requires dim >= n
  {
    if dim > n + 3 then [Block(n, true), Block(dim - 3 - n, false)] else [Block(dim, true)]
  }

  function AfterAlloc(bs: seq<Block>, n: nat): seq<Block>
    requires FitIndex(bs, n) < |bs|
  {
    var i := FitIndex(bs, n);
    bs[..i] + Carved(bs[i].dim, n) + bs[i + 1..]
  }

  /** The walk over headers is the walk over blocks. */
  lemma {:induction false} FirstFitChain(ram: seq<Byte>, p: nat, limit: nat, bs: seq<Block>, n: nat)
    requires Chain(ram, p, bs) && p + Size(bs) == limit + 3 < 0x1_0000 && (bs == [] || EndsInside(bs))
    ensures FirstFit(ram, p, limit, n)
         == if FitIndex(bs, n) < |bs| then Found(p + Size(bs[..FitIndex(bs, n)])) else Overflow
    decreases |bs|
  {
    if bs != [] {
      SizeOfTail(bs);
      if !Fits(bs[0], n) {
        if |bs| == 1 { assert bs[1..] == []; }
        FirstFitChain(ram, p + 3 + bs[0].dim, limit, bs[1..], n);
        var i := FitIndex(bs[1..], n);
        if i < |bs[1..]| {
          assert bs[..i + 1][1..] == bs[1..][..i];
          assert Size(bs[..i + 1]) == bs[0].dim + 3 + Size(bs[1..][..i]);
        }
      }
    }
  }

  lemma CarveChain(ram: seq<Byte>, p: nat, dim: nat, n: nat)
    requires Chain(ram, p, [Block(dim, false)]) && dim >= n && p + 3 + dim <= |ram| < 0x1_0000
    ensures Carve(ram, p, n).Some?
    ensures var ram1 := Carve(ram, p, n).value;
      && |ram1| == |ram| && Chain(ram1, p, Carved(dim, n))
      && forall k :: 0 <= k < |ram| && !(p <= k < p + 3 + dim) ==> ram1[k] == ram[k]
  {
    hide *;
    BlockDim(ram, p, dim);
    CarveIs(ram, p, dim, n);
    if dim > n + 3 {
      CarveSplits(ram, p, dim, n);
    } else {
      HeaderWritten(ram, p, Block(dim, true));
    }
  }

  lemma CarveIs(ram: seq<Byte>, p: nat, dim: nat, n: nat)
    requires p + 2 < |ram| && DimAt(ram, p) == dim && dim >= n && p + 3 + dim <= |ram|
    ensures dim > n + 3 ==> Carve(ram, p, n) == Some(WithHeader(WithHeader(ram, p + 3 + n, dim - 3 - n, FREE), p, n, OWNED))
    ensures dim <= n + 3 ==> Carve(ram, p, n) == Some(WithHeader(ram, p, dim, OWNED))
    ensures dim <= n + 3 ==> Carved(dim, n) == [Block(dim, true)]
    ensures StatusOf(Block(dim, true)) == OWNED
  {
    hide WithHeader, DimAt;
  }

  lemma BlockDim(ram: seq<Byte>, p: nat, dim: nat)
    requires Chain(ram, p, [Block(dim, false)])
    ensures p + 2 < |ram| && DimAt(ram, p) == dim
  {
  }

  lemma CarveSplits(ram: seq<Byte>, p: nat, dim: nat, n: nat)
    requires dim > n + 3 && p + 3 + dim <= |ram| < 0x1_0000
    ensures var ram1 := WithHeader(WithHeader(ram, p + 3 + n, dim - 3 - n, FREE), p, n, OWNED);
      && Chain(ram1, p, Carved(dim, n))
      && forall k :: 0 <= k < |ram| && !(p <= k < p + 3 + dim) ==> ram1[k] == ram[k]
  {
    hide WithHeader, Chain;
    var (used, rest) := (Block(n, true), Block(dim - 3 - n, false));
    var ram0 := WithHeader(ram, p + 3 + n, rest.dim, FREE);
    HeaderWritten(ram, p + 3 + n, rest);
    HeaderWritten(ram0, p, used);
    var ram1 := WithHeader(ram0, p, n, OWNED);
    SizeOne(rest);
    SizeOne(used);
    ChainFrame(ram0, ram1, p + 3 + n, [rest]);
    ChainAdd(ram1, p, [used], [rest]);
    assert [used] + [rest] == Carved(dim, n);
  }

  lemma SizeOne(b: Block)
    ensures Size([b]) == b.dim + 3
  {
    assert [b][1..] == [];
  }

  lemma CarvedShape(dim: nat, n: nat)
    requires dim >= n
    ensures Size(Carved(dim, n)) == dim + 3
    ensures Carved(dim, n) != [] && Carved(dim, n)[0].owned && n <= Carved(dim, n)[0].dim <= n + 3
    ensures Carved(dim, n)[0].dim <= dim
    ensures forall p: nat :: Regions(p, Carved(dim, n)) == {(p + 3, Carved(dim, n)[0].dim)}
    ensures dim > 0 ==> EndsInside(Carved(dim, n))
    ensures NoFreeNeighbours(Carved(dim, n))
  {
    var c := Carved(dim, n);
    if |c| == 2 {
      assert c[1..] == [c[1]] && c[1..][1..] == [];
      assert Size(c[1..]) == c[1].dim + 3;
      forall p: nat ensures Regions(p, c) == {(p + 3, c[0].dim)} {
        assert Regions(p + 3 + c[0].dim, c[1..]) == {};
      }
    } else {
      assert c[1..] == [];
    }
  }

  /** Replacing one block of a chain by blocks of the same size, changing no byte outside it. */
  lemma ReplaceBlock(ram: seq<Byte>, ram1: seq<Byte>, p: nat, bs: seq<Block>, i: nat, mid: seq<Block>)
    requires i < |bs| && Chain(ram, p, bs) && p + Size(bs) <= |ram| == |ram1|
    requires Chain(ram1, p + Size(bs[..i]), mid) && Size(mid) == bs[i].dim + 3
    requires forall k :: 0 <= k < |ram| && !(p + Size(bs[..i]) <= k < p + Size(bs[..i]) + 3 + bs[i].dim) ==> ram1[k] == ram[k]
    ensures Chain(ram1, p, bs[..i] + mid + bs[i + 1..])
    ensures Size(bs[..i] + mid + bs[i + 1..]) == Size(bs)
  {
    hide *;
    SplitAt(ram, p, bs, i);
    ReplaceMiddle(ram, ram1, p, bs[..i], bs[i].dim, mid, bs[i + 1..]);
  }

  lemma ReplaceMiddle(ram: seq<Byte>, ram1: seq<Byte>, p: nat, front: seq<Block>, dim: nat, mid: seq<Block>, back: seq<Block>)
    requires Size(mid) == dim + 3 && p + Size(front) + 3 + dim + Size(back) <= |ram| == |ram1|
    requires Chain(ram, p, front) && Chain(ram, p + Size(front) + 3 + dim, back) && Chain(ram1, p + Size(front), mid)
    requires forall k :: 0 <= k < |ram| && !(p + Size(front) <= k < p + Size(front) + 3 + dim) ==> ram1[k] == ram[k]
    ensures Chain(ram1, p, front + mid + back)
    ensures Size(front + mid + back) == Size(front) + 3 + dim + Size(back)
  {
    hide *;
    ChainFrame(ram, ram1, p, front);
    ChainFrame(ram, ram1, p + Size(front) + 3 + dim, back);
    ChainAdd(ram1, p, front, mid);
    SizeAdd(front, mid);
    ChainAdd(ram1, p, front + mid, back);
    SizeAdd(front + mid, back);
  }

  lemma SplitAt(ram: seq<Byte>, p: nat, bs: seq<Block>, i: nat)
    requires i < |bs| && Chain(ram, p, bs)
    ensures var q := p + Size(bs[..i]);
      && Chain(ram, p, bs[..i]) && Chain(ram, q, [bs[i]]) && Chain(ram, q + 3 + bs[i].dim, bs[i + 1..])
    ensures Size(bs) == Size(bs[..i]) + 3 + bs[i].dim + Size(bs[i + 1..])
  {
    assert bs == bs[..i] + ([bs[i]] + bs[i + 1..]);
    ChainAdd(ram, p, bs[..i], [bs[i]] + bs[i + 1..]);
    ChainAdd(ram, p + Size(bs[..i]), [bs[i]], bs[i + 1..]);
    SizeAdd(bs[..i], [bs[i]] + bs[i + 1..]);
    SizeAdd([bs[i]], bs[i + 1..]);
    assert Size([bs[i]]) == bs[i].dim + 3;
  }

  lemma RegionsSplit(p: nat, bs: seq<Block>, i: nat, mid: seq<Block>)
    requires i < |bs| && Size(mid) == bs[i].dim + 3
    ensures Regions(p, bs[..i] + mid + bs[i + 1..])
         == Regions(p, bs[..i]) + Regions(p + Size(bs[..i]), mid) + Regions(p + Size(bs[..i]) + 3 + bs[i].dim, bs[i + 1..])
  {
    RegionsAdd(p, bs[..i] + mid, bs[i + 1..]);
    RegionsAdd(p, bs[..i], mid);
    SizeAdd(bs[..i], mid);
  }

  lemma AfterAllocKeepsShape(bs: seq<Block>, n: nat)
    requires NoFreeNeighbours(bs) && EndsInside(bs) && FitIndex(bs, n) < |bs|
    ensures NoFreeNeighbours(AfterAlloc(bs, n)) && EndsInside(AfterAlloc(bs, n))
  {
    var i := FitIndex(bs, n);
    var mid := Carved(bs[i].dim, n);
    CarvedShape(bs[i].dim, n);
    var r := AfterAlloc(bs, n);
    forall j | 0 <= j < |r| - 1
      ensures r[j].owned || r[j + 1].owned
    {
      if j + 1 < i {
        assert bs[j].owned || bs[j + 1].owned;
      } else if j + 1 == i {
      } else if j < i + |mid| - 1 {
        assert r[j] == mid[j - i] && r[j + 1] == mid[j + 1 - i];
      } else {
        var d := |mid| - 1;
        assert bs[j - d].owned || bs[j - d + 1].owned;
        assert r[j + 1] == bs[j + 1 - d];
        if j > i + d { assert r[j] == bs[j - d]; }
      }
    }
  }

  /** HALLOC is exact first fit. It overflows iff no free block is large enough. Otherwise it gives
      out the payload of the lowest free block that fits, of the requested size or up to 3 bytes more,
      and keeps the invariant. */
  lemma {:induction false} HallocExact(ram: seq<Byte>, start: nat, limit: nat, bs: seq<Block>, n: nat)
    requires HeapInv(ram, start, limit, bs)
    ensures !Halloc(ram, start, limit, n).HallocCorrupt?
    ensures Halloc(ram, start, limit, n).HeapOverflow? <==> forall i :: 0 <= i < |bs| ==> !Fits(bs[i], n)
    ensures Halloc(ram, start, limit, n).Allocated? ==>
      var i := FitIndex(bs, n); var r := Halloc(ram, start, limit, n);
      && i < |bs| && r.ptr == start + Size(bs[..i]) + 3
      && HeapInv(r.ram, start, limit, AfterAlloc(bs, n))
      && Regions(start, AfterAlloc(bs, n)) == Regions(start, bs) + {(r.ptr, Carved(bs[i].dim, n)[0].dim)}
      && (r.ptr, Carved(bs[i].dim, n)[0].dim) !in Regions(start, bs)
      && n <= Carved(bs[i].dim, n)[0].dim <= n + 3
  {
    hide Carve, Chain, Regions, InOwned, Size, FitIndex, FirstFit, NoFreeNeighbours, Carved;
    FirstFitChain(ram, start, limit, bs, n);
    var i := FitIndex(bs, n);
    if i < |bs| {
      FoundInside(ram, start, limit, n);
      SplitAt(ram, start, bs, i);
      var q := start + Size(bs[..i]);
      CarveChain(ram, q, bs[i].dim, n);
      CarvedShape(bs[i].dim, n);
      ReplaceBlock(ram, Carve(ram, q, n).value, start, bs, i, Carved(bs[i].dim, n));
      AfterAllocKeepsShape(bs, n);
      AfterAllocRegions(start, bs, n);
    }
  }

  /** `ram1` has the bytes of `ram` outside the heap and in every owned block. */
  predicate Untouched(ram: seq<Byte>, ram1: seq<Byte>, start: nat, limit: nat, bs: seq<Block>) {
    && |ram1| == |ram|
    && forall k :: 0 <= k < |ram| && (k < start || k >= limit + 3 || InOwned(start, bs, k)) ==> ram1[k] == ram[k]
  }

  /** No byte of an owned block and no byte outside the heap changes. */
  lemma {:induction false} HallocFrame(ram: seq<Byte>, start: nat, limit: nat, bs: seq<Block>, n: nat)
    requires HeapInv(ram, start, limit, bs) && Halloc(ram, start, limit, n).Allocated?
    ensures Untouched(ram, Halloc(ram, start, limit, n).ram, start, limit, bs)
  {
    hide Carve, Chain, InOwned, Size, FitIndex, FirstFit, NoFreeNeighbours;
    FirstFitChain(ram, start, limit, bs, n);
    var i := FitIndex(bs, n);
    FoundInside(ram, start, limit, n);
    SplitAt(ram, start, bs, i);
    var q := start + Size(bs[..i]);
    CarveChain(ram, q, bs[i].dim, n);
    forall k | 0 <= k < |ram| && (k < start || k >= limit + 3 || InOwned(start, bs, k))
      ensures Carve(ram, q, n).value[k] == ram[k]
    {
      FreeIsNotOwned(start, bs, i, k);
    }
  }

  /** HALLOC writes headers only, so it changes nothing from 2 bytes above the heap limit on. */
  lemma {:induction false} HallocAbove(ram: seq<Byte>, start: nat, limit: nat, bs: seq<Block>, n: nat)
    requires HeapInv(ram, start, limit, bs) && Halloc(ram, start, limit, n).Allocated?
    ensures var ram1 := Halloc(ram, start, limit, n).ram;
      |ram1| == |ram| && ram1[limit + 2..] == ram[limit + 2..]
  {
    hide Carve, Chain, Size, FitIndex, FirstFit, NoFreeNeighbours;
    FirstFitChain(ram, start, limit, bs, n);
    var i := FitIndex(bs, n);
    FoundInside(ram, start, limit, n);
    SplitAt(ram, start, bs, i);
    HeadersBelowLimit(start, limit, bs);
    CarveBelow(ram, start + Size(bs[..i]), bs[i].dim, n, limit);
  }

  lemma CarveBelow(ram: seq<Byte>, q: nat, dim: nat, n: nat, limit: nat)
    requires Chain(ram, q, [Block(dim, false)]) && dim >= n && q < limit && q + 3 + dim <= limit + 3 <= |ram|
    ensures Carve(ram, q, n).Some? ==>
      |Carve(ram, q, n).value| == |ram| && Carve(ram, q, n).value[limit + 2..] == ram[limit + 2..]
  {
    hide Carve, Chain, DimAt;
    BlockDim(ram, q, dim);
    CarveIs(ram, q, dim, n);
  }

  lemma AfterAllocRegions(p: nat, bs: seq<Block>, n: nat)
    requires FitIndex(bs, n) < |bs|
    ensures var i := FitIndex(bs, n); var region := (p + Size(bs[..i]) + 3, Carved(bs[i].dim, n)[0].dim);
      && Regions(p, AfterAlloc(bs, n)) == Regions(p, bs) + {region}
      && region !in Regions(p, bs)
  {
    var i := FitIndex(bs, n);
    CarvedShape(bs[i].dim, n);
    InsertRegion(p, bs, i, Carved(bs[i].dim, n));
  }

  /** Blocks with one region in place of a free block. */
  lemma InsertRegion(p: nat, bs: seq<Block>, i: nat, mid: seq<Block>)
    requires i < |bs| && !bs[i].owned && Size(mid) == bs[i].dim + 3 && mid != []
    requires forall q: nat :: Regions(q, mid) == {(q + 3, mid[0].dim)}
    ensures var region := (p + Size(bs[..i]) + 3, mid[0].dim);
      && Regions(p, bs[..i] + mid + bs[i + 1..]) == Regions(p, bs) + {region}
      && region !in Regions(p, bs)
  {
    hide Size, Regions;
    var q := p + Size(bs[..i]);
    SizeOne(bs[i]);
    RegionsOne(q, bs[i]);
    RegionsSplit(p, bs, i, mid);
    RegionsSplit(p, bs, i, [bs[i]]);
    assert bs == bs[..i] + [bs[i]] + bs[i + 1..];
    RegionsInside(p, bs[..i]);
    RegionsInside(q + 3 + bs[i].dim, bs[i + 1..]);
  }

  lemma RegionsOne(p: nat, b: Block)
    ensures Regions(p, [b]) == if b.owned then {(p + 3, b.dim)} else {}
  {
    assert [b][1..] == [];
  }

  /** Bytes of a free block are not bytes of an owned one. */
  lemma FreeIsNotOwned(p: nat, bs: seq<Block>, i: nat, k: nat)
    requires i < |bs| && !bs[i].owned
    ensures p + Size(bs[..i]) <= k < p + Size(bs[..i]) + 3 + bs[i].dim ==> !InOwned(p, bs, k) && p <= k < p + Size(bs)
  {
    assert bs == bs[..i] + ([bs[i]] + bs[i + 1..]);
    OwnedAdd(p, bs[..i], [bs[i]] + bs[i + 1..], k);
    SizeAdd(bs[..i], [bs[i]] + bs[i + 1..]);
    assert ([bs[i]] + bs[i + 1..])[0] == bs[i];
    SizeAdd([bs[i]], bs[i + 1..]);
    assert Size([bs[i]]) == bs[i].dim + 3;
  }
}
