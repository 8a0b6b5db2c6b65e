/** Heap and stack of one process. The loader's first block brings its header along, so the chain reaches
    3 bytes into the stack: what SPUSH and CALL do to the heap there, and HALLOC and HFREE to the stack. */
module HeapAndStack {
  import opened Bytes
  import opened Isa
  import opened Heap
  import opened HeapBlocks
  import HeapRuns
  import opened Vm
  import opened Stack
  import Brainfuck
  import Lifo

  /** The heap of a process is made of `bs`. */
  ghost predicate HasHeap(s: State, bs: seq<Block>) { HeapInv(s.ram, s.proc.heapStart, s.proc.heapLimit, bs) }

  // ----- the stack on the heap -----

  /** The last byte of a chain is payload: no header depends on it. */
  lemma {:induction false} ChainButLast(ram: seq<Byte>, ram1: seq<Byte>, p: nat, bs: seq<Block>)
    requires Chain(ram, p, bs) && |ram1| == |ram| && p + Size(bs) <= |ram| && EndsInside(bs)
    requires forall k :: p <= k < p + Size(bs) - 1 ==> ram1[k] == ram[k]
    ensures Chain(ram1, p, bs)
    decreases |bs|
  {
    if |bs| > 1 {
      SizeOfTail(bs[1..]);
      ChainButLast(ram, ram1, p + 3 + bs[0].dim, bs[1..]);
    } else {
      assert bs[1..] == [];
    }
  }

  /** A push that ends 2 bytes above the heap limit or higher leaves every header alone; one that ends
      3 bytes above it leaves every byte of the chain alone. */
  lemma PushBytesKeepsHeap(s: State, bytes: seq<Byte>, bs: seq<Block>)
    requires WellStacked(s) && !s.status.Fault? && |bytes| <= 2 && HasHeap(s, bs)
    requires s.proc.sp - |bytes| >= s.proc.heapLimit + 2
    ensures var t := PushBytes(s, bytes);
      !t.status.Fault? ==>
        && HasHeap(t, bs)
        && (t.proc.sp >= s.proc.heapLimit + 3 ==> t.ram[..s.proc.heapLimit + 3] == s.ram[..s.proc.heapLimit + 3])
  {
    hide PushBytes, Chain, Size;
    PushBytesExact(s, bytes);
    var t := PushBytes(s, bytes);
    if !t.status.Fault? {
      forall k | 0 <= k < t.proc.sp ensures t.ram[k] == s.ram[k] {
        assert t.ram[..t.proc.sp][k] == s.ram[..t.proc.sp][k];
      }
      ChainButLast(s.ram, t.ram, s.proc.heapStart, bs);
    }
  }

  /** So do SPUSH and CALL. */
  lemma PushKeepsHeap(s: State, arg: RawArg, bs: seq<Block>)
    requires WellStacked(s) && !s.status.Fault? && HasHeap(s, bs)
    ensures !Push(s, arg).status.Fault? && Push(s, arg).proc.sp >= s.proc.heapLimit + 2 ==> HasHeap(Push(s, arg), bs)
    ensures !Call(s, arg).status.Fault? && Call(s, arg).proc.sp >= s.proc.heapLimit + 2 ==> HasHeap(Call(s, arg), bs)
  {
    hide PushBytes, ReadArg, HeapInv;
    PushIs(s, arg);
    var address := [High(s.proc.pc), Low(s.proc.pc)];
    PushBytesExact(s, address);
    if s.proc.sp - 2 >= s.proc.heapLimit + 2 { PushBytesKeepsHeap(s, address, bs); }
    if ReadArg(s, arg).Val? {
      var bytes := if StackWidth(arg) == 1 then [ReadArg(s, arg).v] else [0, ReadArg(s, arg).v];
      PushBytesExact(s, bytes);
      if s.proc.sp - |bytes| >= s.proc.heapLimit + 2 { PushBytesKeepsHeap(s, bytes, bs); }
    }
  }

  /** Memory whose chain starts with `front` is parsed that way by every chain. */
  lemma {:induction false} FrontIsShared(ram: seq<Byte>, p: nat, front: seq<Block>, bs: seq<Block>)
    requires Chain(ram, p, front) && Chain(ram, p, bs) && Size(bs) > Size(front)
    ensures |front| < |bs| && Chain(ram, p + Size(front), bs[|front|..]) && Size(bs[|front|..]) == Size(bs) - Size(front)
    decreases |front|
  {
    if front == [] {
      assert bs[0..] == bs;
    } else {
      assert StatusOf(front[0]) == StatusOf(bs[0]);
      FrontIsShared(ram, p + 3 + front[0].dim, front[1..], bs[1..]);
      assert bs[1..][|front| - 1..] == bs[|front|..];
    }
  }

  /** A last header of which a byte has been overwritten makes memory no heap at all. */
  lemma LastHeaderSmashed(ram: seq<Byte>, start: nat, limit: nat, front: seq<Block>, bs: seq<Block>)
    requires Chain(ram, start, front) && start + Size(front) == limit - 1 && limit + 2 < |ram|
    requires DimAt(ram, limit - 1) != 1 || ram[limit + 1] != FREE
    requires DimAt(ram, limit - 1) > 1 || ram[limit + 1] !in {FREE, OWNED}
    ensures !HeapInv(ram, start, limit, bs)
  {
    if HeapInv(ram, start, limit, bs) {
      FrontIsShared(ram, start, front, bs);
    }
  }

  /** A chain whose last block has one byte of payload: its header is the one on the heap limit. */
  ghost predicate LastIsTiny(bs: seq<Block>) { bs != [] && bs[|bs| - 1] == Block(1, false) }

  /** On such a heap, a push that ends on the last header destroys the heap. */
  lemma PushSmashesHeap(s: State, bs: seq<Block>, v: Byte)
    requires WellStacked(s) && !s.status.Fault? && HasHeap(s, bs) && LastIsTiny(bs) && v > 1
    requires s.proc.heapLimit == s.proc.stackLimit < s.proc.sp <= s.proc.heapLimit + 2
    ensures var t := PushBytes(s, [v]); !t.status.Fault? && forall bs1 :: !HasHeap(t, bs1)
  {
    hide PushBytes, Chain, Size, HeapInv, WellStacked, StackBytes;
    var (start, limit) := (s.proc.heapStart, s.proc.heapLimit);
    var t := PushBytes(s, [v]);
    var front := bs[..|bs| - 1];
    LastHeader(s.ram, start, limit, bs);
    PushedByte(s, v);
    ChainFrame(s.ram, t.ram, start, front);
    forall bs1 ensures !HasHeap(t, bs1) { LastHeaderSmashed(t.ram, start, limit, front, bs1); }
  }

  /** One byte pushed: it lies at the new top, and memory below is as it was. */
  lemma PushedByte(s: State, v: Byte)
    requires WellStacked(s) && !s.status.Fault? && s.proc.stackLimit < s.proc.sp
    ensures var t := PushBytes(s, [v]);
      && !t.status.Fault? && t.proc == s.proc.(sp := s.proc.sp - 1) && |t.ram| == |s.ram| && t.proc.sp < |t.ram|
      && t.ram[t.proc.sp] == v && forall k :: 0 <= k < t.proc.sp ==> t.ram[k] == s.ram[k]
  {
    PushBytesExact(s, [v]);
    hide PushBytes;
    var t := PushBytes(s, [v]);
    forall k | 0 <= k < t.proc.sp ensures t.ram[k] == s.ram[k] {
      assert t.ram[..t.proc.sp][k] == s.ram[..t.proc.sp][k];
    }
    assert t.ram[t.proc.sp] == StackBytes(t)[0] == v;
  }

  lemma LastHeader(ram: seq<Byte>, start: nat, limit: nat, bs: seq<Block>)
    requires HeapInv(ram, start, limit, bs) && bs[|bs| - 1].dim == 1
    ensures var front := bs[..|bs| - 1];
      && Chain(ram, start, front) && start + Size(front) == limit - 1 && limit + 2 < |ram|
      && ram[limit - 1] == 0 && ram[limit] == 1 && ram[limit + 1] == StatusOf(bs[|bs| - 1])
  {
    var front := bs[..|bs| - 1];
    SplitAt(ram, start, bs, |bs| - 1);
    assert bs[|bs|..] == [];
    assert DimAt(ram, limit - 1) == 1;
    JoinIs(ram[limit - 1], ram[limit]);
  }

  /** Whatever the heap holds, an SPUSH of `n` bytes keeps it a heap; of two bytes the first is 0. */
  ghost predicate PushSafe(s: State, n: nat) {
    forall ram: seq<Byte>, bs, bytes: seq<Byte> ::
      |ram| == |s.ram| && HasHeap(s.(ram := ram), bs) && Pushable(bytes, n) ==>
        HasHeap(PushBytes(s.(ram := ram), bytes), bs)
  }

  predicate Pushable(bytes: seq<Byte>, n: nat) { |bytes| == n && (n == 2 ==> bytes[0] == 0) }

  /** Memory with an owned block up to a last block of `dim` bytes; only the two headers are written. */
  lemma TwoBlocks(ram: seq<Byte>, start: nat, limit: nat, dim: nat, owned: bool) returns (ram1: seq<Byte>, bs: seq<Block>)
    requires 0 < dim && start + 3 + dim <= limit && limit + 3 <= |ram| < 0x1_0000
    ensures |ram1| == |ram| && HeapInv(ram1, start, limit, bs)
    ensures bs == [Block(limit - start - 3 - dim, true), Block(dim, owned)]
    ensures ram1[limit - dim + 3..] == ram[limit - dim + 3..]
  {
    hide WithHeader, Chain, Size;
    var (first, last) := (Block(limit - start - 3 - dim, true), Block(dim, owned));
    bs := [first] + [last];
    var ram0 := WithHeader(ram, limit - dim, dim, StatusOf(last));
    ram1 := WithHeader(ram0, start, first.dim, OWNED);
    HeaderWritten(ram, limit - dim, last);
    HeaderWritten(ram0, start, first);
    TwoBlocksTile(ram0, ram1, start, limit, first, last);
  }

  lemma TwoBlocksTile(ram0: seq<Byte>, ram1: seq<Byte>, start: nat, limit: nat, first: Block, last: Block)
    requires |ram0| == |ram1| < 0x1_0000 && limit + 3 <= |ram1| && start + first.dim + 3 + last.dim == limit
    requires first.owned && last.dim > 0
    requires Chain(ram0, limit - last.dim, [last]) && Chain(ram1, start, [first])
    requires forall k :: 0 <= k < |ram0| && !(start <= k < start + 3) ==> ram1[k] == ram0[k]
    ensures HeapInv(ram1, start, limit, [first] + [last])
  {
    hide Chain, Size;
    SizeOne(first);
    SizeOne(last);
    SizeAdd([first], [last]);
    ChainFrame(ram0, ram1, limit - last.dim, [last]);
    ChainAdd(ram1, start, [first], [last]);
  }

  /** Exactly when an SPUSH is safe for every heap: it has to end 2 bytes above the heap limit, although
      the stack limit, which is the heap limit, allows it to go on to that. */
  lemma {:induction false} PushSafeExact(s: State, n: nat)
    requires WellStacked(s) && s.status.Running? && |s.ram| < 0x1_0000 && 1 <= n <= 2
    requires s.proc.heapStart + 4 <= s.proc.heapLimit == s.proc.stackLimit && s.proc.stackLimit + n <= s.proc.sp
    requires s.proc.heapLimit + 3 <= |s.ram|
    ensures PushSafe(s, n) <==> s.proc.sp - n >= s.proc.heapLimit + 2
  {
    hide PushBytes, HasHeap;
    if s.proc.sp - n >= s.proc.heapLimit + 2 {
      forall ram: seq<Byte>, bs, bytes | |ram| == |s.ram| && HasHeap(s.(ram := ram), bs) && Pushable(bytes, n)
        ensures HasHeap(PushBytes(s.(ram := ram), bytes), bs)
      {
        PushBytesExact(s.(ram := ram), bytes);
        PushBytesKeepsHeap(s.(ram := ram), bytes, bs);
      }
    } else {
      var ram, bs := TwoBlocks(s.ram, s.proc.heapStart, s.proc.heapLimit, 1, true);
      var zeros: seq<Byte> := if n == 1 then [0] else [0, 0];
      HeapIs(s.(ram := ram), bs);
      ZerosSmash(s.(ram := ram), bs, zeros);
    }
  }

  /** Zeros pushed on the header of an owned last block of one byte. */
  lemma ZerosSmash(s: State, bs: seq<Block>, zeros: seq<Byte>)
    requires WellStacked(s) && s.status.Running? && HasHeap(s, bs) && bs[|bs| - 1] == Block(1, true)
    requires zeros == [0] || zeros == [0, 0]
    requires s.proc.heapLimit <= s.proc.sp - |zeros| <= s.proc.heapLimit + 1 && s.proc.stackLimit + |zeros| <= s.proc.sp
    ensures !HasHeap(PushBytes(s, zeros), bs)
  {
    hide PushBytes, Chain, Size;
    PushBytesExact(s, zeros);
    var t := PushBytes(s, zeros);
    assert t.ram[t.proc.sp] == StackBytes(t)[0] == 0;
    if HasHeap(t, bs) { LastHeader(t.ram, t.proc.heapStart, t.proc.heapLimit, bs); }
  }

  /** A program gets there: three requests for 255 bytes and one for 222 leave a last block of one byte. */
  lemma {:induction false} TinyBlockIsReached(ram: seq<Byte>, start: nat, limit: nat)
    requires HeapInv(ram, start, limit, [Block(1000, false)])
    ensures var ops := [HeapRuns.Alloc(255), HeapRuns.Alloc(255), HeapRuns.Alloc(255), HeapRuns.Alloc(222)];
      var bs := [Block(255, true), Block(255, true), Block(255, true), Block(222, true), Block(1, false)];
      && HeapInv(HeapRuns.DoAll(HeapRuns.HeapState(ram, {}), start, limit, ops).ram, start, limit, bs)
      && LastIsTiny(bs)
  {
    hide *;
    var used := Block(255, true);
    var h0 := HeapRuns.HeapState(ram, {});
    Fronts(used, Block(1000, false), Block(222, true), Block(1, false));
    var h1 := NextRequest(h0, start, limit, [], 1000, 255);
    var h2 := NextRequest(h1, start, limit, [used], 742, 255);
    var h3 := NextRequest(h2, start, limit, [used, used], 484, 255);
    var h4 := NextRequest(h3, start, limit, [used, used, used], 226, 222);
    FourOps(h0, start, limit, HeapRuns.Alloc(255), HeapRuns.Alloc(255), HeapRuns.Alloc(255), HeapRuns.Alloc(222));
    LastOfFive([used, used, used, Block(222, true), Block(1, false)]);
  }

  lemma Fronts(b: Block, whole: Block, c: Block, d: Block)
    ensures [] + [whole] == [whole]
    ensures [] + [b] == [b] && [b] + [b] == [b, b] && [b, b] + [b] == [b, b, b]
    ensures [b, b, b] + [c, d] == [b, b, b, c, d]
  {
  }

  lemma FourOps(h: HeapRuns.HeapState, start: nat, limit: nat, a: HeapRuns.Op, b: HeapRuns.Op, c: HeapRuns.Op, d: HeapRuns.Op)
    ensures HeapRuns.DoAll(h, start, limit, [a, b, c, d])
         == HeapRuns.Do(HeapRuns.Do(HeapRuns.Do(HeapRuns.Do(h, start, limit, a), start, limit, b), start, limit, c), start, limit, d)
  {
    hide HeapRuns.Do;
    var h1 := HeapRuns.Do(h, start, limit, a);
    var h2 := HeapRuns.Do(h1, start, limit, b);
    var h3 := HeapRuns.Do(h2, start, limit, c);
    assert [a, b, c, d][1..] == [b, c, d] && [b, c, d][1..] == [c, d] && [c, d][1..] == [d] && [d][1..] == [];
    assert HeapRuns.DoAll(h1, start, limit, [b, c, d]) == HeapRuns.DoAll(h2, start, limit, [c, d]);
    assert HeapRuns.DoAll(h2, start, limit, [c, d]) == HeapRuns.DoAll(h3, start, limit, [d]);
    assert HeapRuns.DoAll(h3, start, limit, [d]) == HeapRuns.Do(h3, start, limit, d);
  }

  lemma LastOfFive(bs: seq<Block>)
    requires |bs| == 5 && bs[4] == Block(1, false)
    ensures LastIsTiny(bs)
  {
  }

  /** A request that splits the only free block. */
  lemma NextRequest(h: HeapRuns.HeapState, start: nat, limit: nat, front: seq<Block>, dim: nat, n: nat)
      returns (h1: HeapRuns.HeapState)
    requires HeapInv(h.ram, start, limit, front + [Block(dim, false)]) && dim > n + 3
    requires forall i :: 0 <= i < |front| ==> front[i].owned
    ensures h1 == HeapRuns.Do(h, start, limit, HeapRuns.Alloc(n))
    ensures HeapInv(h1.ram, start, limit, front + [Block(n, true), Block(dim - n - 3, false)])
    ensures HeapInv(h1.ram, start, limit, (front + [Block(n, true)]) + [Block(dim - n - 3, false)])
  {
    hide Halloc, HeapInv, Regions, Size, InOwned;
    var bs := front + [Block(dim, false)];
    h1 := HeapRuns.Do(h, start, limit, HeapRuns.Alloc(n));
    assert Fits(bs[|front|], n);
    HallocExact(h.ram, start, limit, bs, n);
    assert FitIndex(bs, n) == |front|;
    assert bs[..|front|] == front && bs[|front| + 1..] == [];
    assert AfterAlloc(bs, n) == front + [Block(n, true), Block(dim - n - 3, false)];
    assert (front + [Block(n, true)]) + [Block(dim - n - 3, false)] == AfterAlloc(bs, n);
  }

  // ----- the heap on the stack -----

  /** HALLOC changes nothing outside the heap. */
  lemma {:induction false} AllocStaysInHeap(s: State, n: nat, bs: seq<Block>)
    requires HasHeap(s, bs) && Halloc(s.ram, s.proc.heapStart, s.proc.heapLimit, n).Allocated?
    ensures SameOffHeap(s, Halloc(s.ram, s.proc.heapStart, s.proc.heapLimit, n).ram)
  {
    hide Halloc, HeapInv, InOwned;
    HallocFrame(s.ram, s.proc.heapStart, s.proc.heapLimit, bs, n);
  }

  /** `ram` has the bytes of `s` outside the heap. */
  predicate SameOffHeap(s: State, ram: seq<Byte>) {
    && |ram| == |s.ram|
    && forall k :: 0 <= k < |ram| && (k < s.proc.heapStart || k >= s.proc.heapLimit + 3) ==> ram[k] == s.ram[k]
  }

  /** With the stack pointer 2 bytes above the heap limit, HALLOC leaves the stack alone. */
  lemma {:induction false} AllocKeepsStack(s: State, n: nat, bs: seq<Block>)
    requires WellStacked(s) && HasHeap(s, bs) && s.proc.sp >= s.proc.heapLimit + 2
    requires Halloc(s.ram, s.proc.heapStart, s.proc.heapLimit, n).Allocated?
    ensures KeepsStack(s, s.(ram := Halloc(s.ram, s.proc.heapStart, s.proc.heapLimit, n).ram))
  {
    hide Halloc, HeapInv;
    HallocAbove(s.ram, s.proc.heapStart, s.proc.heapLimit, bs, n);
    HeapFits(s, bs);
    SameAbove(s, Halloc(s.ram, s.proc.heapStart, s.proc.heapLimit, n).ram, s.proc.heapLimit + 2);
  }

  /** Memory that agrees from some byte on agrees on a stack that lies above it. */
  lemma SameAbove(s: State, ram: seq<Byte>, from: nat)
    requires WellStacked(s) && from <= s.proc.sp && |ram| == |s.ram| && ram[from..] == s.ram[from..]
    ensures KeepsStack(s, s.(ram := ram))
  {
    forall k | s.proc.sp <= k < StackTop(s) ensures ram[k] == s.ram[k] {
      assert ram[from..][k - from] == s.ram[from..][k - from];
    }
  }

  lemma HeapFits(s: State, bs: seq<Block>)
    requires HasHeap(s, bs)
    ensures s.proc.heapLimit + 3 <= |s.ram| < 0x1_0000
  {
  }

  /** And so does HFREE of a held region. */
  lemma {:induction false} FreeKeepsStack(s: State, region: (nat, nat), bs: seq<Block>)
    requires WellStacked(s) && HasHeap(s, bs) && s.proc.sp >= s.proc.heapLimit + 2
    requires region in Regions(s.proc.heapStart, bs)
    ensures region.0 < 0x1_0000
    ensures var r := Hfree(s.ram, s.proc.heapStart, s.proc.heapLimit, region.0);
      r.Freed? && KeepsStack(s, s.(ram := r.ram))
  {
    hide Hfree, HeapInv, Regions;
    HeapRuns.HfreeAbove(s.ram, s.proc.heapStart, s.proc.heapLimit, bs, region);
    HeapFits(s, bs);
    SameAbove(s, Hfree(s.ram, s.proc.heapStart, s.proc.heapLimit, region.0).ram, s.proc.heapLimit + 2);
  }

  /** Lower down they may not: splitting the last block for a remainder of one byte writes its header on the
      heap limit, over whatever the program has pushed there. */
  lemma {:induction false} AllocSmashesStack(s: State, n: nat, bs: seq<Block>)
    requires WellStacked(s) && HasHeap(s, bs) && s.proc.sp <= s.proc.heapLimit + 1
    requires s.proc.heapLimit + 1 < StackTop(s) && s.ram[s.proc.heapLimit + 1] != FREE
    requires FitIndex(bs, n) == |bs| - 1 && bs[|bs| - 1].dim == n + 4
    ensures Halloc(s.ram, s.proc.heapStart, s.proc.heapLimit, n).Allocated?
    ensures !KeepsStack(s, s.(ram := Halloc(s.ram, s.proc.heapStart, s.proc.heapLimit, n).ram))
  {
    hide Halloc, InOwned, Regions, Chain;
    var (start, limit) := (s.proc.heapStart, s.proc.heapLimit);
    HallocExact(s.ram, start, limit, bs, n);
    HallocFrame(s.ram, start, limit, bs, n);
    var i := |bs| - 1;
    var after := AfterAlloc(bs, n);
    assert Fits(bs[i], n);
    assert bs[i + 1..] == [];
    assert after == bs[..i] + [Block(n, true), Block(1, false)];
    var ram1 := Halloc(s.ram, start, limit, n).ram;
    hide Size;
    LastHeader(ram1, start, limit, after);
    OneByteDiffers(s, ram1, limit + 1);
  }

  lemma OneByteDiffers(s: State, ram: seq<Byte>, k: nat)
    requires WellStacked(s) && s.proc.sp <= k < StackTop(s) && |ram| == |s.ram| && ram[k] != s.ram[k]
    ensures !KeepsStack(s, s.(ram := ram))
  {
    assert ram[s.proc.sp..StackTop(s)][k - s.proc.sp] == ram[k];
    assert StackBytes(s)[k - s.proc.sp] == s.ram[k];
  }

  /** And releasing an owned last block of one byte changes its status on the stack. */
  lemma {:induction false} FreeSmashesStack(s: State, bs: seq<Block>)
    requires WellStacked(s) && HasHeap(s, bs) && s.proc.sp <= s.proc.heapLimit + 1 < StackTop(s)
    requires bs[|bs| - 1] == Block(1, true)
    ensures (s.proc.heapLimit + 2, 1) in Regions(s.proc.heapStart, bs)
    ensures var r := Hfree(s.ram, s.proc.heapStart, s.proc.heapLimit, Wrap16(s.proc.heapLimit + 2));
      r.Freed? && !KeepsStack(s, s.(ram := r.ram))
  {
    hide Hfree, Regions, Chain, Size, KeepsStack;
    var (start, limit) := (s.proc.heapStart, s.proc.heapLimit);
    LastHeader(s.ram, start, limit, bs);
    LastRegion(start, bs);
    HeapRuns.HfreeAbove(s.ram, start, limit, bs, (limit + 2, 1));
    OneByteDiffers(s, Hfree(s.ram, start, limit, limit + 2).ram, limit + 1);
  }

  lemma LastRegion(p: nat, bs: seq<Block>)
    requires bs != [] && bs[|bs| - 1].owned
    ensures (p + Size(bs[..|bs| - 1]) + 3, bs[|bs| - 1].dim) in Regions(p, bs)
  {
    var (front, last) := (bs[..|bs| - 1], bs[|bs| - 1]);
    assert bs == front + [last];
    RegionsAdd(p, front, [last]);
    RegionsOne(p + Size(front), last);
  }

  /** Whatever the heap holds, HALLOC leaves the stack alone. */
  ghost predicate AllocSafe(s: State) {
    forall ram: seq<Byte>, bs, n: Byte ::
      |ram| == |s.ram| && HasHeap(s.(ram := ram), bs)
      && Halloc(ram, s.proc.heapStart, s.proc.heapLimit, n).Allocated? ==>
        KeepsRam(s, ram, Halloc(ram, s.proc.heapStart, s.proc.heapLimit, n).ram)
  }

  /** Whatever the heap holds, HFREE of a held region leaves the stack alone. */
  ghost predicate FreeSafe(s: State) {
    forall ram: seq<Byte>, bs, region: (nat, nat) ::
      |ram| == |s.ram| && HasHeap(s.(ram := ram), bs) && region in Regions(s.proc.heapStart, bs) ==>
        && Hfree(ram, s.proc.heapStart, s.proc.heapLimit, Wrap16(region.0)).Freed?
        && KeepsRam(s, ram, Hfree(ram, s.proc.heapStart, s.proc.heapLimit, Wrap16(region.0)).ram)
  }

  /** `ram` and `ram1` have the same bytes where the stack of `s` is. */
  predicate KeepsRam(s: State, ram: seq<Byte>, ram1: seq<Byte>) {
    s.proc.sp <= StackTop(s) <= |ram| ==> KeepsStack(s.(ram := ram), s.(ram := ram1))
  }

  /** Exactly when HALLOC is safe for every stack: the stack pointer has to be 2 bytes above the heap limit. */
  lemma {:induction false} AllocSafeExact(s: State)
    requires WellStacked(s) && s.status.Running? && |s.ram| < 0x1_0000
    requires s.proc.heapStart + 7 <= s.proc.heapLimit == s.proc.stackLimit && s.proc.heapLimit + 3 <= StackTop(s)
    ensures AllocSafe(s) <==> s.proc.sp >= s.proc.heapLimit + 2
  {
    hide Halloc, HasHeap, KeepsStack;
    if s.proc.sp >= s.proc.heapLimit + 2 {
      forall ram: seq<Byte>, bs, n: Byte | |ram| == |s.ram| && HasHeap(s.(ram := ram), bs)
        && Halloc(ram, s.proc.heapStart, s.proc.heapLimit, n).Allocated?
        ensures KeepsRam(s, ram, Halloc(ram, s.proc.heapStart, s.proc.heapLimit, n).ram)
      {
        AllocKeepsStack(s.(ram := ram), n, bs);
      }
    } else {
      var before: seq<Byte> := s.ram[s.proc.heapLimit + 1 := 1];
      var ram, bs := TwoBlocks(before, s.proc.heapStart, s.proc.heapLimit, 4, false);
      assert ram[s.proc.heapLimit - 1..][2] == before[s.proc.heapLimit - 1..][2];
      HeapIs(s.(ram := ram), bs);
      AllocSmashesStack(s.(ram := ram), 0, bs);
    }
  }

  lemma HeapIs(s: State, bs: seq<Block>)
    requires HeapInv(s.ram, s.proc.heapStart, s.proc.heapLimit, bs)
    ensures HasHeap(s, bs)
  {
  }

  /** And exactly when HFREE is. */
  lemma {:induction false} FreeSafeExact(s: State)
    requires WellStacked(s) && s.status.Running? && |s.ram| < 0x1_0000
    requires s.proc.heapStart + 4 <= s.proc.heapLimit == s.proc.stackLimit && s.proc.heapLimit + 3 <= StackTop(s)
    ensures FreeSafe(s) <==> s.proc.sp >= s.proc.heapLimit + 2
  {
    hide Hfree, HasHeap, KeepsStack, Regions;
    if s.proc.sp >= s.proc.heapLimit + 2 {
      forall ram: seq<Byte>, bs, region: (nat, nat) | |ram| == |s.ram| && HasHeap(s.(ram := ram), bs)
        && region in Regions(s.proc.heapStart, bs)
        ensures Hfree(ram, s.proc.heapStart, s.proc.heapLimit, Wrap16(region.0)).Freed?
        ensures KeepsRam(s, ram, Hfree(ram, s.proc.heapStart, s.proc.heapLimit, Wrap16(region.0)).ram)
      {
        FreeKeepsStack(s.(ram := ram), region, bs);
      }
    } else {
      var ram, bs := TwoBlocks(s.ram, s.proc.heapStart, s.proc.heapLimit, 1, true);
      HeapIs(s.(ram := ram), bs);
      FreeSmashesStack(s.(ram := ram), bs);
    }
  }

  // ----- instructions that leave the stack to the four -----

  /** Where an instruction writes, as a program can tell before it runs: its destination is not on the used
      stack; HALLOC and HFREE work on a well-formed heap that the stack does not touch. */
  ghost predicate StoresElsewhere(s: State, f: Fetched, bs: seq<Block>)
    requires |f.args| == Arity(f.opcode)
  {
    match f.opcode
    case 0x12 | 0x32 | 0x52 | 0x72 | 0x92 | 0x21 => OutsideStack(s, f.args[0], s.proc.sp)
    case 0x91 => OutsideStack(s, f.args[0], s.proc.sp + StackWidth(f.args[0]))
    case 0xC2 =>
      && HasHeap(s, bs) && s.proc.sp >= s.proc.heapLimit + 2
      && OutsideStack(s, f.args[0], s.proc.sp) && LabelOffHeap(s, f.args[0])
    case 0xA1 =>
      && HasHeap(s, bs) && s.proc.sp >= s.proc.heapLimit + 2
      && exists region :: region in Regions(s.proc.heapStart, bs) && region.0 == Pointer(s, f.args[0])
    case _ => true
  }

  /** An operand that reads its address at a label does not read it in the heap. */
  predicate LabelOffHeap(s: State, arg: RawArg) {
    arg.typ == INDIRECT_LBL ==>
      var addr := Wrap16(arg.value + s.proc.firstSector);
      addr + 1 < s.proc.heapStart || addr >= s.proc.heapLimit + 3
  }

  ghost predicate WritesElsewhere(s: State, bs: seq<Block>) {
    Live(s) && Next(s).Some? ==> StoresElsewhere(Ready(s), Next(s).value, bs)
  }

  /** The address that HFREE is given. */
  function Pointer(s: State, arg: RawArg): int {
    if arg.typ == ADDRESS then arg.value
    else
      match Deref(s, arg)
      case Err(_) => -1
      case Val(v) => v
  }

  /** Such an instruction is tame: runs of such instructions are those of the abstract stack. */
  lemma {:induction false} ElsewhereIsTame(s: State, bs: seq<Block>)
    requires WellStacked(s) && WritesElsewhere(s, bs)
    ensures Lifo.Tame(s)
  {
    if Live(s) && Next(s).Some? {
      Lifo.StepDispatches(s);
      hide Fetch, Arity, Step, OutsideStack, HeapInv, Regions, Dispatch;
      if !StackOpcode(Next(s).value.opcode) { DispatchElsewhere(Ready(s), Next(s).value, bs); }
    }
  }

  lemma DispatchElsewhere(s: State, f: Fetched, bs: seq<Block>)
    requires WellStacked(s) && s.status.Running? && |f.args| == Arity(f.opcode) && !StackOpcode(f.opcode)
    requires StoresElsewhere(s, f, bs)
    ensures KeepsStack(s, Dispatch(s, f))
  {
    hide Fetch, OutsideStack, HasHeap, Regions, Halloc, Alloc, Release, Assign, ReadArg, Deref, Input;
    match f.opcode
    case 0x12 | 0x32 | 0x52 | 0x72 | 0x92 => AssignElsewhere(s, f.args[0]);
    case 0x21 => InputElsewhere(s, f.args[0]);
    case 0xC2 => AllocElsewhere(s, f.args[0], f.args[1], bs);
    case 0xA1 => ReleaseElsewhere(s, f.args[0], bs);
    case _ =>
  }

  /** Same memory size, same bytes on the stack of `s`. */
  predicate KeepsStack(s: State, t: State)
    requires s.proc.sp <= StackTop(s) <= |s.ram|
  {
    |t.ram| == |s.ram| && t.ram[s.proc.sp..StackTop(s)] == StackBytes(s)
  }

  lemma AssignElsewhere(s: State, arg: RawArg)
    requires WellStacked(s) && s.status.Running? && OutsideStack(s, arg, s.proc.sp)
    ensures forall v :: KeepsStack(s, Assign(s, arg, v))
  {
    hide Assign, OutsideStack;
    forall v ensures KeepsStack(s, Assign(s, arg, v)) { AssignOutside(s, arg, v, s.proc.sp); }
  }

  lemma InputElsewhere(s: State, arg: RawArg)
    requires WellStacked(s) && s.status.Running? && OutsideStack(s, arg, s.proc.sp)
    ensures KeepsStack(s, Input(s, arg))
  {
    hide Assign;
    var s1 := s.(input := Brainfuck.RestInput(s.input));
    assert OutsideStack(s1, arg, s.proc.sp);
    AssignOutside(s1, arg, Brainfuck.NextInput(s.input), s.proc.sp);
  }

  lemma {:induction false} AllocElsewhere(s: State, place: RawArg, size: RawArg, bs: seq<Block>)
    requires WellStacked(s) && s.status.Running? && HasHeap(s, bs) && s.proc.sp >= s.proc.heapLimit + 2
    requires OutsideStack(s, place, s.proc.sp) && LabelOffHeap(s, place)
    ensures KeepsStack(s, Alloc(s, place, size))
  {
    hide Assign, Halloc, OutsideStack, HeapInv, Deref, LabelOffHeap, SameOffHeap;
    var read := if size.typ == NUMBER then Val(Wrap(size.value)) else Deref(s, size);
    if read.Val? {
      var n := read.v;
      var r := Halloc(s.ram, s.proc.heapStart, s.proc.heapLimit, n);
      if r.Allocated? {
        AllocStaysInHeap(s, n, bs);
        AllocKeepsStack(s, n, bs);
        StillOutside(s, r.ram, place);
        AssignOutside(s.(ram := r.ram), place, Wrap(r.ptr), s.proc.sp);
      }
    }
  }

  lemma StillOutside(s: State, ram: seq<Byte>, arg: RawArg)
    requires OutsideStack(s, arg, s.proc.sp) && LabelOffHeap(s, arg) && SameOffHeap(s, ram)
    ensures OutsideStack(s.(ram := ram), arg, s.proc.sp)
  {
  }

  lemma ReleaseElsewhere(s: State, arg: RawArg, bs: seq<Block>)
    requires WellStacked(s) && s.status.Running? && HasHeap(s, bs) && s.proc.sp >= s.proc.heapLimit + 2
    requires exists region :: region in Regions(s.proc.heapStart, bs) && region.0 == Pointer(s, arg)
    ensures KeepsStack(s, Release(s, arg))
  {
    hide Hfree, HeapInv, Deref, Regions;
    var region :| region in Regions(s.proc.heapStart, bs) && region.0 == Pointer(s, arg);
    FreeKeepsStack(s, region, bs);
  }
}
