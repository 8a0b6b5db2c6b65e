/** `MemoryManager`: the host-side allocator of process regions, a sorted list of free ranges. */
module FreeList {
  import opened Bytes

  datatype Range = Range(start: Word, size: nat)

  const RAM_SIZE := 64000
  const FRAMEBUFFER_SIZE := 64 * 64

  /** Everything below the interface control byte, which precedes the framebuffer. */
  const MANAGED: nat := RAM_SIZE - FRAMEBUFFER_SIZE - 1

  // ----- the operations -----

  /** First fit; the range shrinks from below and disappears when it is used up. */
  function Take(list: seq<Range>, n: nat): Option<(Word, seq<Range>)> {
    if list == [] then None
    else if list[0].size >= n then
      var rest := Range(Wrap16(list[0].start + n), list[0].size - n);
      Some((list[0].start, (if rest.size == 0 then [] else [rest]) + list[1..]))
    else
      match Take(list[1..], n)
      case None => None
      case Some((start, tail)) => Some((start, [list[0]] + tail))
  }

  /** The first range that does not start below `start`. */
  function Position(list: seq<Range>, start: Word): (i: nat)
    ensures i <= |list|
    ensures i < |list| ==> list[i].start >= start
    ensures forall j :: 0 <= j < i ==> list[j].start < start
  {
    if list == [] || list[0].start >= start then 0 else 1 + Position(list[1..], start)
  }

  predicate TouchesLeft(list: seq<Range>, start: Word) {
    var i := Position(list, start);
    i > 0 && list[i - 1].start + list[i - 1].size == start
  }

  predicate TouchesRight(list: seq<Range>, start: Word, n: nat) {
    var i := Position(list, start);
    i < |list| && list[i].start == start + n
  }

  /** Inserts a range and joins it with the neighbours that it touches. */
  function Give(list: seq<Range>, start: Word, n: nat): seq<Range> {
    var i := Position(list, start);
    if TouchesLeft(list, start) && TouchesRight(list, start, n) then
      list[..i - 1] + [Range(list[i - 1].start, list[i - 1].size + n + list[i].size)] + list[i + 1..]
    else if TouchesLeft(list, start) then
      list[..i - 1] + [Range(list[i - 1].start, list[i - 1].size + n)] + list[i..]
    else if TouchesRight(list, start, n) then
      list[..i] + [Range(start, list[i].size + n)] + list[i + 1..]
    else list[..i] + [Range(start, n)] + list[i..]
  }

  predicate Ordered(list: seq<Range>) {
    forall i :: 0 <= i < |list| - 1 ==>
      list[i].start <= list[i + 1].start && list[i].start + list[i].size <= list[i + 1].start
  }

  /** No range reaches beyond the beginning of any later one. */
  predicate Apart(list: seq<Range>) {
    forall i, j :: 0 <= i < j < |list| ==> list[i].start + list[i].size <= list[j].start
  }

  /** It is enough to look at neighbours. */
  lemma {:induction false} OrderedIsApart(list: seq<Range>)
    ensures Ordered(list) <==> Apart(list)
  {
    if Ordered(list) {
      forall i, j | 0 <= i < j < |list| ensures list[i].start + list[i].size <= list[j].start {
        OrderedApart(list, i, j);
      }
    }
  }

  lemma {:induction false} OrderedApart(list: seq<Range>, i: nat, j: nat)
    requires Ordered(list) && i < j < |list|
    ensures list[i].start + list[i].size <= list[j].start
  {
    if i + 1 < j { OrderedApart(list, i, j - 1); }
  }

  class MemoryManager {
    var freeList: seq<Range>

    constructor ()
      ensures freeList == [Range(0, MANAGED)]
    {
      freeList := [Range(0, MANAGED)];
    }

    /** None is the exception for a failed allocation. */
    method Allocate(bytes: nat) returns (r: Option<Word>)
      modifies this
      ensures match Take(old(freeList), bytes)
        case None => r == None && freeList == old(freeList)
        case Some((start, list)) => r == Some(start) && freeList == list
    {
      var i := 0;
      assert freeList[0..] == freeList;
      TakeNone(freeList[..0], freeList, bytes);
      while i < |freeList|
        invariant 0 <= i <= |freeList| && freeList == old(freeList)
        invariant forall j :: 0 <= j < i ==> freeList[j].size < bytes
      {
        if freeList[i].size >= bytes {
          TakeHere(freeList, i, bytes);
          var left := freeList[i].size - bytes;
          r := Some(freeList[i].start);
          if left == 0 {
            freeList := freeList[..i] + freeList[i + 1..];
          } else {
            freeList := freeList[i := Range(Wrap16(freeList[i].start + bytes), left)];
          }
          return;
        }
        i := i + 1;
      }
      TakeNone(freeList, [], bytes);
      assert freeList + [] == freeList;
      return None;
    }

    method Free(start: Word, size: nat)
      modifies this
      ensures freeList == Give(old(freeList), start, size)
    {
      var i := 0;
      while i < |freeList| && freeList[i].start < start
        invariant 0 <= i <= |freeList|
        invariant forall j :: 0 <= j < i ==> freeList[j].start < start
      {
        i := i + 1;
      }
      PositionIs(freeList, start, i);
      if i != 0 {
        var prev := freeList[i - 1];
        if prev.start + prev.size == start {
          var joined := prev.size + size;
          if i < |freeList| && freeList[i].start == prev.start + joined {
            freeList := freeList[..i - 1] + [Range(prev.start, joined + freeList[i].size)] + freeList[i + 1..];
          } else {
            freeList := freeList[..i - 1] + [Range(prev.start, joined)] + freeList[i..];
          }
        } else if i < |freeList| && freeList[i].start == start + size {
          freeList := freeList[..i] + [Range(start, freeList[i].size + size)] + freeList[i + 1..];
        } else {
          freeList := freeList[..i] + [Range(start, size)] + freeList[i..];
        }
      } else if i < |freeList| && freeList[i].start == start + size {
        freeList := freeList[..i] + [Range(start, freeList[i].size + size)] + freeList[i + 1..];
      } else {
        freeList := freeList[..i] + [Range(start, size)] + freeList[i..];
      }
    }

    method CheckIntegrity() returns (ok: bool)
      ensures ok <==> Apart(freeList)
    {
      hide Apart;
      OrderedIsApart(freeList);
      if |freeList| <= 1 {
        return true;
      }
      var i := 1;
      while i < |freeList|
        invariant 1 <= i <= |freeList|
        invariant forall j :: 0 <= j < i - 1 ==>
          freeList[j].start <= freeList[j + 1].start && freeList[j].start + freeList[j].size <= freeList[j + 1].start
      {
        if freeList[i - 1].start > freeList[i - 1 + 1].start {
          return false;
        } else if freeList[i - 1].start + freeList[i - 1].size > freeList[i - 1 + 1].start {
          return false;
        }
        i := i + 1;
      }
      return true;
    }

    method Reset()
      modifies this
      ensures freeList == [Range(0, MANAGED)]
    {
      freeList := [Range(0, MANAGED)];
    }
  }

  lemma {:induction false} TakeNone(list: seq<Range>, rest: seq<Range>, n: nat)
    requires forall j :: 0 <= j < |list| ==> list[j].size < n
    ensures Take(list + rest, n) ==
      match Take(rest, n)
      case None => None
      case Some((start, tail)) => Some((start, list + tail))
  {
    if list == [] {
      assert list + rest == rest;
      if Take(rest, n).Some? { assert list + Take(rest, n).value.1 == Take(rest, n).value.1; }
    } else {
      assert (list + rest)[1..] == list[1..] + rest;
      TakeNone(list[1..], rest, n);
      if Take(rest, n).Some? {
        assert list + Take(rest, n).value.1 == [list[0]] + (list[1..] + Take(rest, n).value.1);
      }
    }
  }

  lemma TakeHere(list: seq<Range>, i: nat, n: nat)
    requires i < |list| && list[i].size >= n
    requires forall j :: 0 <= j < i ==> list[j].size < n
    ensures Take(list, n) == Some((list[i].start,
      if list[i].size == n then list[..i] + list[i + 1..]
      else list[i := Range(Wrap16(list[i].start + n), list[i].size - n)]))
  {
    hide Take;
    var rest := Range(Wrap16(list[i].start + n), list[i].size - n);
    SplitHere(list, i, rest);
    TakeNone(list[..i], list[i..], n);
    TakeHead(list[i], list[i + 1..], n);
  }

  lemma SplitHere(list: seq<Range>, i: nat, r: Range)
    requires i < |list|
    ensures list == list[..i] + list[i..] && list[i..] == [list[i]] + list[i + 1..]
    ensures list[..i] + ([r] + list[i + 1..]) == list[i := r]
  {
  }

  lemma TakeHead(r: Range, tail: seq<Range>, n: nat)
    requires r.size >= n
    ensures Take([r] + tail, n) == Some((r.start,
      if r.size == n then tail else [Range(Wrap16(r.start + n), r.size - n)] + tail))
  {
    assert ([r] + tail)[1..] == tail;
    assert [] + tail == tail;
  }

  lemma {:induction false} PositionIs(list: seq<Range>, start: Word, i: nat)
    requires i <= |list| && (forall j :: 0 <= j < i ==> list[j].start < start)
    requires i < |list| ==> list[i].start >= start
    ensures Position(list, start) == i
  {
    if i > 0 { PositionIs(list[1..], start, i - 1); }
  }

  // ----- canonical lists -----

  predicate Contains(r: Range, a: int) { r.start <= a < r.start + r.size }

  /** Address `a` is free. */
  predicate IsFree(list: seq<Range>, a: int) { exists i :: 0 <= i < |list| && Contains(list[i], a) }

  /** No empty range, sorted, and a gap between any two ranges. */
  predicate Canonical(list: seq<Range>) {
    && (forall i :: 0 <= i < |list| ==> 0 < list[i].size && list[i].start + list[i].size <= MANAGED)
    && (forall i, j :: 0 <= i < j < |list| ==> list[i].start + list[i].size < list[j].start)
  }

  lemma FreeParts(xs: seq<Range>, ys: seq<Range>, a: int)
    ensures IsFree(xs + ys, a) <==> IsFree(xs, a) || IsFree(ys, a)
  {
    if i :| 0 <= i < |xs| && Contains(xs[i], a) { assert Contains((xs + ys)[i], a); }
    if i :| 0 <= i < |ys| && Contains(ys[i], a) { assert Contains((xs + ys)[|xs| + i], a); }
  }

  lemma FreeOne(r: Range, a: int)
    ensures IsFree([r], a) <==> Contains(r, a)
  {
    if Contains(r, a) { assert Contains([r][0], a); }
  }

  lemma CanonicalTail(list: seq<Range>)
    requires Canonical(list) && list != []
    ensures Canonical(list[1..])
    ensures forall a :: IsFree(list[1..], a) <==> IsFree(list, a) && a > list[0].start + list[0].size
  {
    assert list == [list[0]] + list[1..];
    forall a ensures IsFree(list[1..], a) <==> IsFree(list, a) && a > list[0].start + list[0].size {
      FreeParts([list[0]], list[1..], a);
      FreeOne(list[0], a);
    }
  }

  /** Canonical lists pass the integrity check. */
  lemma {:induction false} CanonicalIsOrdered(list: seq<Range>)
    requires Canonical(list)
    ensures Ordered(list) && Apart(list)
  {
    OrderedIsApart(list);
  }

  /** The canonical list of a set of free addresses is unique. */
  lemma {:induction false} CanonicalUnique(xs: seq<Range>, ys: seq<Range>)
    requires Canonical(xs) && Canonical(ys)
    requires forall a :: IsFree(xs, a) <==> IsFree(ys, a)
    ensures xs == ys
  {
    if xs == [] && ys == [] {
    } else if xs == [] {
      SomethingIsFree(ys);
    } else if ys == [] {
      SomethingIsFree(xs);
    } else {
      HeadNotBefore(xs, ys);
      HeadNotBefore(ys, xs);
      HeadNotShorter(xs, ys);
      HeadNotShorter(ys, xs);
      assert xs[0] == ys[0];
      CanonicalTail(xs);
      CanonicalTail(ys);
      CanonicalUnique(xs[1..], ys[1..]);
      assert xs == [xs[0]] + xs[1..] && ys == [ys[0]] + ys[1..];
    }
  }

  lemma SomethingIsFree(list: seq<Range>)
    requires Canonical(list) && list != []
    ensures exists a :: IsFree(list, a)
  {
    assert Contains(list[0], list[0].start);
    assert IsFree(list, list[0].start);
  }

  lemma HeadNotBefore(xs: seq<Range>, ys: seq<Range>)
    requires Canonical(xs) && Canonical(ys) && xs != [] && ys != []
    requires forall a :: IsFree(xs, a) <==> IsFree(ys, a)
    ensures xs[0].start <= ys[0].start
  {
    assert Contains(ys[0], ys[0].start);
    assert IsFree(xs, ys[0].start);
  }

  lemma HeadNotShorter(xs: seq<Range>, ys: seq<Range>)
    requires Canonical(xs) && Canonical(ys) && xs != [] && ys != [] && xs[0].start == ys[0].start
    requires forall a :: IsFree(xs, a) <==> IsFree(ys, a)
    ensures xs[0].size >= ys[0].size
  {
    var end := xs[0].start + xs[0].size;
    assert IsFree(ys, end) ==> IsFree(xs, end);
    if xs[0].size < ys[0].size {
      assert Contains(ys[0], end);
    }
  }

  // ----- allocate -----

  /** All of [a, a + n) is free. */
  ghost predicate FreeRun(list: seq<Range>, a: int, n: nat) { forall x :: a <= x < a + n ==> IsFree(list, x) }

  /** Consecutive free addresses lie in one range. */
  lemma RunInOneRange(list: seq<Range>, a: int, n: nat) returns (i: nat)
    requires Canonical(list) && n > 0 && FreeRun(list, a, n)
    ensures i < |list| && list[i].start <= a && a + n <= list[i].start + list[i].size
  {
    assert IsFree(list, a);
    i :| 0 <= i < |list| && Contains(list[i], a);
    var end := list[i].start + list[i].size;
    if end < a + n {
      assert IsFree(list, end);
      var j :| 0 <= j < |list| && Contains(list[j], end);
      assert false;
    }
  }

  /** What Take does on a canonical list, in terms of the range it takes from. */
  lemma {:induction false} TakeShape(list: seq<Range>, n: nat)
    ensures Take(list, n).None? <==> forall j :: 0 <= j < |list| ==> list[j].size < n
    ensures Take(list, n).Some? ==> exists i: nat :: TakenFrom(list, n, i)
  {
    hide Take;
    if i: nat :| i < |list| && list[i].size >= n && forall j :: 0 <= j < i ==> list[j].size < n {
      TakeHere(list, i, n);
      assert TakenFrom(list, n, i);
    } else {
      NoneFits(list, |list|, n);
      TakeNone(list, [], n);
      assert list + [] == list;
      TakeNothing(n);
    }
  }

  lemma TakeNothing(n: nat)
    ensures Take([], n).None?
  {
  }

  /** When no range is the first that fits, none fits. */
  lemma {:induction false} NoneFits(list: seq<Range>, k: nat, n: nat)
    requires k <= |list|
    requires !exists i: nat :: i < |list| && list[i].size >= n && forall j :: 0 <= j < i ==> list[j].size < n
    ensures forall j :: 0 <= j < k ==> list[j].size < n
  {
    if k > 0 {
      NoneFits(list, k - 1, n);
      assert list[k - 1].size < n;
    }
  }

  ghost predicate TakenFrom(list: seq<Range>, n: nat, i: nat) {
    && i < |list| && list[i].size >= n && (forall j :: 0 <= j < i ==> list[j].size < n)
    && Take(list, n) == Some((list[i].start,
         if list[i].size == n then list[..i] + list[i + 1..]
         else list[i := Range(Wrap16(list[i].start + n), list[i].size - n)]))
  }

  /** `allocate` is complete and exact: a request of positive size fails iff no n consecutive addresses
      are free; otherwise it returns the lowest such place, removes exactly that interval from the free
      addresses, and the list stays canonical. */
  lemma {:induction false} AllocateExact(list: seq<Range>, n: nat)
    requires Canonical(list) && n > 0
    ensures Take(list, n).None? <==> forall a :: !FreeRun(list, a, n)
    ensures Take(list, n).Some? ==> var (start, list1) := Take(list, n).value;
      && Canonical(list1) && FreeRun(list, start, n) && start + n <= MANAGED
      && (forall a :: a < start ==> !FreeRun(list, a, n))
      && (forall a :: IsFree(list1, a) <==> IsFree(list, a) && !(start <= a < start + n))
  {
    hide Take;
    TakeShape(list, n);
    if Take(list, n).None? {
      forall a ensures !FreeRun(list, a, n) {
        if FreeRun(list, a, n) { var i := RunInOneRange(list, a, n); }
      }
    } else {
      var i: nat :| TakenFrom(list, n, i);
      var start := list[i].start;
      assert forall x :: start <= x < start + n ==> Contains(list[i], x);
      assert FreeRun(list, start, n);
      forall a | a < start ensures !FreeRun(list, a, n) {
        if FreeRun(list, a, n) { var j := RunInOneRange(list, a, n); }
      }
      TakenIsCanonical(list, n, i);
      forall a { TakenAddresses(list, n, i, a); }
    }
  }

  lemma TakenIsCanonical(list: seq<Range>, n: nat, i: nat)
    requires Canonical(list) && n > 0 && TakenFrom(list, n, i)
    ensures Canonical(Take(list, n).value.1)
  {
    hide Take;
    CanonicalParts(list, i, i + 1);
    if list[i].size == n {
      CanonicalJoin(list[..i], list[i + 1..]);
    } else {
      var rest := Range(Wrap16(list[i].start + n), list[i].size - n);
      assert list[i := rest] == list[..i] + [rest] + list[i + 1..];
      InsertedIsCanonical(list, i, i + 1, rest);
    }
  }

  lemma CanonicalParts(list: seq<Range>, left: nat, right: nat)
    requires Canonical(list) && left <= right <= |list|
    ensures Canonical(list[..left]) && Canonical(list[right..])
  {
  }

  lemma CanonicalJoin(xs: seq<Range>, ys: seq<Range>)
    requires Canonical(xs) && Canonical(ys)
    requires forall i, j :: 0 <= i < |xs| && 0 <= j < |ys| ==> xs[i].start + xs[i].size < ys[j].start
    ensures Canonical(xs + ys)
  {
    var zs := xs + ys;
    forall i, j | 0 <= i < j < |zs| ensures zs[i].start + zs[i].size < zs[j].start {
      if j < |xs| {
        assert zs[i] == xs[i] && zs[j] == xs[j];
      } else if i >= |xs| {
        assert zs[i] == ys[i - |xs|] && zs[j] == ys[j - |xs|];
      } else {
        assert zs[i] == xs[i] && zs[j] == ys[j - |xs|];
      }
    }
  }

  lemma {:induction false} TakenAddresses(list: seq<Range>, n: nat, i: nat, a: int)
    requires Canonical(list) && n > 0 && TakenFrom(list, n, i)
    ensures IsFree(Take(list, n).value.1, a) <==> IsFree(list, a) && !(list[i].start <= a < list[i].start + n)
  {
    TakenShape(list, n, i);
    OthersApart(list, i, a);
    hide Take, TakenFrom, Canonical, IsFree;
    var mid := Remainder(list[i], n);
    FreeAround(list[..i], [list[i]], list[i + 1..], a);
    FreeAround(list[..i], mid, list[i + 1..], a);
    FreeOne(list[i], a);
    RemainderFree(list[i], n, a);
  }

  /** What is left of a range behind its first `n` addresses. */
  function Remainder(r: Range, n: nat): seq<Range>
    requires n <= r.size
  {
    if r.size == n then [] else [Range(Wrap16(r.start + n), r.size - n)]
  }

  lemma RemainderFree(r: Range, n: nat, a: int)
    requires n <= r.size && r.start + r.size <= MANAGED
    ensures IsFree(Remainder(r, n), a) <==> r.start + n <= a < r.start + r.size
  {
    if n < r.size { FreeOne(Range(r.start + n, r.size - n), a); }
  }

  lemma TakenShape(list: seq<Range>, n: nat, i: nat)
    requires Canonical(list) && TakenFrom(list, n, i)
    ensures list[i].size >= n && list[i].start + list[i].size <= MANAGED
    ensures list == list[..i] + [list[i]] + list[i + 1..]
    ensures Take(list, n).value.1 == list[..i] + Remainder(list[i], n) + list[i + 1..]
  {
    hide *;
    TakenBound(list, n, i);
    TakenIs(list, n, i);
    Replaced(list, i, list[i]);
    RemainderIs(list[i], n);
    if list[i].size == n {
      assert list[..i] + [] + list[i + 1..] == list[..i] + list[i + 1..];
    } else {
      Replaced(list, i, Range(Wrap16(list[i].start + n), list[i].size - n));
    }
  }

  lemma RemainderIs(r: Range, n: nat)
    requires n <= r.size
    ensures Remainder(r, n) == if r.size == n then [] else [Range(Wrap16(r.start + n), r.size - n)]
  {
  }

  lemma TakenBound(list: seq<Range>, n: nat, i: nat)
    requires Canonical(list) && TakenFrom(list, n, i)
    ensures i < |list| && list[i].size >= n && list[i].start + list[i].size <= MANAGED
  {
  }

  lemma TakenIs(list: seq<Range>, n: nat, i: nat)
    requires TakenFrom(list, n, i)
    ensures i < |list| && list[i].size >= n
    ensures Take(list, n) == Some((list[i].start,
      if list[i].size == n then list[..i] + list[i + 1..]
      else list[i := Range(Wrap16(list[i].start + n), list[i].size - n)]))
  {
    hide Take;
  }

  lemma Replaced(list: seq<Range>, i: nat, r: Range)
    requires i < |list|
    ensures list[i := r] == list[..i] + [r] + list[i + 1..]
  {
  }

  lemma FreeAround(xs: seq<Range>, mid: seq<Range>, ys: seq<Range>, a: int)
    ensures IsFree(xs + mid + ys, a) <==> IsFree(xs, a) || IsFree(mid, a) || IsFree(ys, a)
  {
    FreeParts(xs + mid, ys, a);
    FreeParts(xs, mid, a);
  }

  lemma OthersApart(list: seq<Range>, i: nat, a: int)
    requires Canonical(list) && i < |list|
    ensures Contains(list[i], a) ==> !IsFree(list[..i], a) && !IsFree(list[i + 1..], a)
  {
    forall j | 0 <= j < i ensures Contains(list[i], a) ==> !Contains(list[..i][j], a) {
      assert list[j].start + list[j].size < list[i].start;
    }
    var tail := list[i + 1..];
    forall j | 0 <= j < |tail| ensures Contains(list[i], a) ==> !Contains(tail[j], a) {
      assert list[i].start + list[i].size < list[i + 1 + j].start;
    }
  }

  // ----- free -----

  /** `free` of addresses that are not free adds exactly them, and the list stays canonical. */
  lemma {:induction false} FreeExact(list: seq<Range>, start: Word, n: nat)
    requires Canonical(list) && n > 0 && start + n <= MANAGED
    requires forall a :: start <= a < start + n ==> !IsFree(list, a)
    ensures Canonical(Give(list, start, n))
    ensures forall a :: IsFree(Give(list, start, n), a) <==> IsFree(list, a) || start <= a < start + n
  {
    var i := Position(list, start);
    BeforeAndAfter(list, start, n);
    GivenIsCanonical(list, start, n);
    forall a ensures IsFree(Give(list, start, n), a) <==> IsFree(list, a) || start <= a < start + n {
      GivenAddresses(list, start, n, a);
    }
  }

  /** The ranges before the insertion point end at or before the interval, the others begin at or after its end. */
  lemma BeforeAndAfter(list: seq<Range>, start: Word, n: nat)
    requires Canonical(list) && n > 0
    requires forall a :: start <= a < start + n ==> !IsFree(list, a)
    ensures forall j :: 0 <= j < Position(list, start) ==> list[j].start + list[j].size <= start
    ensures forall j :: Position(list, start) <= j < |list| ==> start + n <= list[j].start
  {
    hide Position;
    var i := Position(list, start);
    assert !IsFree(list, start);
    forall j | 0 <= j < i ensures list[j].start + list[j].size <= start {
      assert list[j].start < start;
      assert Contains(list[j], start) ==> IsFree(list, start);
    }
    forall j | i <= j < |list| ensures start + n <= list[j].start {
      assert list[i].start >= start && list[j].start >= start;
      assert Contains(list[j], list[j].start) ==> IsFree(list, list[j].start);
    }
  }

  /** Give replaces the touching neighbours, if any, and the interval by one range. */
  lemma GiveShape(list: seq<Range>, start: Word, n: nat) returns (left: nat, right: nat, mid: Range)
    ensures var i := Position(list, start);
      && left <= i <= left + 1 && i <= right <= i + 1 && right <= |list|
      && (left < i <==> TouchesLeft(list, start)) && (right > i <==> TouchesRight(list, start, n))
      && mid.start == (if left < i then list[left].start else start)
      && mid.start + mid.size == (if right > i then list[i].start + list[i].size else start + n)
      && Give(list, start, n) == list[..left] + [mid] + list[right..]
  {
    hide Position;
    var i := Position(list, start);
    left := if TouchesLeft(list, start) then i - 1 else i;
    right := if TouchesRight(list, start, n) then i + 1 else i;
    var low := if left < i then list[left].start else start;
    var high := if right > i then list[i].start + list[i].size else start + n;
    mid := Range(low, high - low);
  }

  lemma GivenIsCanonical(list: seq<Range>, start: Word, n: nat)
    requires Canonical(list) && n > 0 && start + n <= MANAGED
    requires forall j :: 0 <= j < Position(list, start) ==> list[j].start + list[j].size <= start
    requires forall j :: Position(list, start) <= j < |list| ==> start + n <= list[j].start
    ensures Canonical(Give(list, start, n))
  {
    hide Position;
    var i := Position(list, start);
    var left, right, mid := GiveShape(list, start, n);
    hide Give;
    forall j | 0 <= j < left ensures list[j].start + list[j].size < mid.start {
      if left == i && j == i - 1 { assert !TouchesLeft(list, start); }
    }
    forall j | right <= j < |list| ensures mid.start + mid.size < list[j].start {
      if right == i && j == i { assert !TouchesRight(list, start, n); }
    }
    InsertedIsCanonical(list, left, right, mid);
  }

  /** A range put between two parts of a canonical list. */
  lemma InsertedIsCanonical(list: seq<Range>, left: nat, right: nat, r: Range)
    requires Canonical(list) && left <= right <= |list| && 0 < r.size && r.start + r.size <= MANAGED
    requires forall j :: 0 <= j < left ==> list[j].start + list[j].size < r.start
    requires forall j :: right <= j < |list| ==> r.start + r.size < list[j].start
    ensures Canonical(list[..left] + [r] + list[right..])
  {
    CanonicalParts(list, left, right);
    CanonicalJoin(list[..left], [r]);
    CanonicalJoin(list[..left] + [r], list[right..]);
  }

  lemma GivenAddresses(list: seq<Range>, start: Word, n: nat, a: int)
    requires Canonical(list) && n > 0 && start + n <= MANAGED
    requires forall j :: 0 <= j < Position(list, start) ==> list[j].start + list[j].size <= start
    requires forall j :: Position(list, start) <= j < |list| ==> start + n <= list[j].start
    ensures IsFree(Give(list, start, n), a) <==> IsFree(list, a) || start <= a < start + n
  {
    hide Position, IsFree, Canonical, Give;
    var left, right, mid := GiveShape(list, start, n);
    var i := Position(list, start);
    InsertedAddresses(list, left, i, right, start, n, mid, a);
  }

  /** Replacing the neighbours of an interval by one range that covers them and the interval. */
  lemma InsertedAddresses(list: seq<Range>, left: nat, i: nat, right: nat, start: Word, n: nat, mid: Range, a: int)
    requires left <= i <= left + 1 && i <= right <= i + 1 && right <= |list|
    requires left < i ==> list[left].start + list[left].size == start
    requires right > i ==> list[i].start == start + n
    requires mid.start == if left < i then list[left].start else start
    requires mid.start + mid.size == if right > i then list[i].start + list[i].size else start + n
    ensures IsFree(list[..left] + [mid] + list[right..], a) <==> IsFree(list, a) || start <= a < start + n
  {
    hide IsFree;
    assert list == list[..left] + list[left..right] + list[right..];
    FreeAround(list[..left], [mid], list[right..], a);
    FreeOne(mid, a);
    FreeAround(list[..left], list[left..right], list[right..], a);
    assert list[left..right] == list[left..i] + list[i..right];
    FreeParts(list[left..i], list[i..right], a);
    FreeUpToOne(list, left, i, a);
    FreeUpToOne(list, i, right, a);
    FreeWithin(if left < i then [list[left]] else [], if right > i then [list[i]] else [], start, n, mid, a);
  }

  /** Joining a range with the neighbours that touch it. */
  lemma FreeWithin(left: seq<Range>, right: seq<Range>, start: Word, n: nat, mid: Range, a: int)
    requires |left| <= 1 && |right| <= 1
    requires left != [] ==> left[0].start + left[0].size == start
    requires right != [] ==> right[0].start == start + n
    requires mid.start == if left != [] then left[0].start else start
    requires mid.start + mid.size == if right != [] then right[0].start + right[0].size else start + n
    ensures Contains(mid, a) <==>
      (left != [] && Contains(left[0], a)) || start <= a < start + n || (right != [] && Contains(right[0], a))
  {
  }

  lemma FreeUpToOne(list: seq<Range>, i: nat, j: nat, a: int)
    requires i <= j <= i + 1 && j <= |list|
    ensures IsFree(list[i..j], a) <==> i < j && Contains(list[i], a)
  {
    if i < j {
      assert list[i..j] == [list[i]];
      FreeOne(list[i], a);
    }
  }

  /** A request for nothing fails iff nothing at all is free, and takes nothing away. */
  lemma AllocateNothing(list: seq<Range>)
    requires Canonical(list)
    ensures Take(list, 0).None? <==> forall a :: !IsFree(list, a)
    ensures Take(list, 0).Some? ==> list != [] && Take(list, 0).value == (list[0].start, list)
  {
    if list != [] {
      assert Contains(list[0], list[0].start);
      assert IsFree(list, list[0].start);
      assert [list[0]] + list[1..] == list;
    }
  }

  /** `free` of what `allocate` returned gives back the identical list. */
  lemma FreeUndoesAllocate(list: seq<Range>, n: nat)
    requires Canonical(list) && Take(list, n).Some?
    ensures var (start, list1) := Take(list, n).value; Give(list1, start, n) == list
  {
    if n == 0 {
      AllocateNothing(list);
    } else {
      FreeUndoesTaking(list, n);
    }
  }

  lemma FreeUndoesTaking(list: seq<Range>, n: nat)
    requires Canonical(list) && n > 0 && Take(list, n).Some?
    ensures var (start, list1) := Take(list, n).value; Give(list1, start, n) == list
  {
    hide Take, Give, Canonical;
    AllocateExact(list, n);
    var (start, list1) := Take(list, n).value;
    FreeExact(list1, start, n);
    CanonicalUnique(Give(list1, start, n), list);
  }

  /** Freeing an empty region keeps the list canonical, and then unchanged, iff it touches a free range:
      elsewhere an empty range is inserted. */
  lemma FreeNothing(list: seq<Range>, start: Word)
    requires Canonical(list)
    ensures Canonical(Give(list, start, 0)) <==> TouchesLeft(list, start) || TouchesRight(list, start, 0)
    ensures Canonical(Give(list, start, 0)) ==> Give(list, start, 0) == list
  {
    hide Position;
    var i := Position(list, start);
    if TouchesLeft(list, start) {
      assert list == list[..i - 1] + [list[i - 1]] + list[i..];
    } else if TouchesRight(list, start, 0) {
      assert list == list[..i] + [list[i]] + list[i + 1..];
    } else {
      assert Give(list, start, 0)[i] == Range(start, 0);
    }
  }

  /** So an empty region must not be given back after the address behind it has been taken. */
  lemma EmptyRegionBreaks()
    ensures Take([Range(0, MANAGED)], 0) == Some((0, [Range(0, MANAGED)]))
    ensures Take([Range(0, MANAGED)], 10) == Some((0, [Range(10, MANAGED - 10)]))
    ensures !Canonical(Give([Range(10, MANAGED - 10)], 0, 0))
  {
    AllocateNothing([Range(0, MANAGED)]);
    assert [Range(10, MANAGED - 10)] + [Range(0, MANAGED)][1..] == [Range(10, MANAGED - 10)];
    FreeNothing([Range(10, MANAGED - 10)], 0);
  }

  // ----- runs -----

  datatype Op = Alloc(n: nat) | Release(region: (nat, nat))

  /** The list and the regions handed out and not yet given back. */
  datatype Pool = Pool(list: seq<Range>, live: set<(nat, nat)>)

  ghost predicate Allowed(p: Pool, op: Op) {
    match op
    case Alloc(n) => n > 0
    case Release(region) => region in p.live
  }

  function Do(p: Pool, op: Op): Pool {
    match op
    case Alloc(n) =>
      (match Take(p.list, n)
       case None => p
       case Some((start, list)) => Pool(list, p.live + {(start as nat, n)}))
    case Release(region) => Pool(Give(p.list, Wrap16(region.0), region.1), p.live - {region})
  }

  predicate InRegion(region: (nat, nat), a: int) { region.0 <= a < region.0 + region.1 }

  /** The list is canonical, and every managed address is free or in exactly one live region. */
  ghost predicate Sound(p: Pool) {
    && Canonical(p.list)
    && (forall r :: r in p.live ==> r.1 > 0 && r.0 + r.1 <= MANAGED)
    && (forall r, a :: r in p.live && InRegion(r, a) ==> !IsFree(p.list, a))
    && (forall a :: 0 <= a < MANAGED && !IsFree(p.list, a) ==> exists r :: r in p.live && InRegion(r, a))
    && (forall r, q, a :: r in p.live && q in p.live && InRegion(r, a) && InRegion(q, a) ==> r == q)
  }

  lemma StartsSound()
    ensures Sound(Pool([Range(0, MANAGED)], {}))
  {
    forall a | 0 <= a < MANAGED ensures IsFree([Range(0, MANAGED)], a) {
      FreeOne(Range(0, MANAGED), a);
    }
  }

  lemma AllocKeeps(p: Pool, n: nat)
    requires Sound(p) && n > 0
    ensures Sound(Do(p, Alloc(n)))
    ensures Take(p.list, n).Some? ==> (Take(p.list, n).value.0 as nat, n) !in p.live
  {
    hide Take, Canonical, IsFree;
    AllocateExact(p.list, n);
    if Take(p.list, n).Some? {
      var (start, list) := Take(p.list, n).value;
      var region := (start as nat, n);
      var p1 := Do(p, Alloc(n));
      assert InRegion(region, start);
      forall a | 0 <= a < MANAGED && !IsFree(p1.list, a) ensures exists r :: r in p1.live && InRegion(r, a) {
        if IsFree(p.list, a) {
          assert region in p1.live && InRegion(region, a);
        } else {
          var r :| r in p.live && InRegion(r, a);
          assert r in p1.live;
        }
      }
    }
  }

  lemma ReleaseKeeps(p: Pool, region: (nat, nat))
    requires Sound(p) && region in p.live
    ensures Sound(Do(p, Release(region)))
  {
    hide Give, Canonical, IsFree;
    forall a | region.0 <= a < region.0 + region.1 ensures !IsFree(p.list, a) {
      assert InRegion(region, a);
    }
    FreeExact(p.list, region.0, region.1);
    var p1 := Do(p, Release(region));
    forall a | 0 <= a < MANAGED && !IsFree(p1.list, a) ensures exists r :: r in p1.live && InRegion(r, a) {
      var r :| r in p.live && InRegion(r, a);
      assert r in p1.live;
    }
  }

  function DoAll(p: Pool, ops: seq<Op>): Pool
    decreases |ops|
  {
    if ops == [] then p else DoAll(Do(p, ops[0]), ops[1..])
  }

  ghost predicate AllAllowed(p: Pool, ops: seq<Op>)
    decreases |ops|
  {
    ops == [] || (Allowed(p, ops[0]) && AllAllowed(Do(p, ops[0]), ops[1..]))
  }

  /** Over every run of allocations of positive size and releases of allocated regions, the list stays
      canonical and the free ranges and live regions partition the managed memory. */
  lemma {:induction false} RunKeeps(p: Pool, ops: seq<Op>)
    requires Sound(p) && AllAllowed(p, ops)
    ensures Sound(DoAll(p, ops))
    decreases |ops|
  {
    hide Sound, Do;
    if ops != [] {
      match ops[0] {
        case Alloc(n) => AllocKeeps(p, n);
        case Release(region) => ReleaseKeeps(p, region);
      }
      RunKeeps(Do(p, ops[0]), ops[1..]);
    }
  }

  /** Giving everything back, in any order, restores the initial list. */
  lemma {:induction false} RunToEmpty(p: Pool, ops: seq<Op>)
    requires Sound(p) && AllAllowed(p, ops) && DoAll(p, ops).live == {}
    ensures DoAll(p, ops).list == [Range(0, MANAGED)]
  {
    hide DoAll, AllAllowed;
    RunKeeps(p, ops);
    var list := DoAll(p, ops).list;
    StartsSound();
    forall a ensures IsFree(list, a) <==> IsFree([Range(0, MANAGED)], a) {
      FreeOne(Range(0, MANAGED), a);
    }
    CanonicalUnique(list, [Range(0, MANAGED)]);
  }
}
