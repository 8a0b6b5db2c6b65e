/** The heap inside RAM: HALLOC and HFREE over a chain of blocks with 3-byte big-endian headers.
    First the two instructions as functions of memory and as in-place methods. */
module Heap {
  import opened Bytes

  const FREE: Byte := 0
  const OWNED: Byte := 1

  function DimAt(ram: seq<Byte>, p: nat): Word
    requires p + 2 < |ram|
  {
    Join(ram[p], ram[p + 1])
  }

  /** Memory with a header for a block of `dim` bytes at `p`. */
  function WithHeader(ram: seq<Byte>, p: nat, dim: nat, status: Byte): (r: seq<Byte>)
    requires p + 2 < |ram|
    ensures |r| == |ram|
  {
    ram[p := High(dim)][p + 1 := Low(dim)][p + 2 := status]
  }

  /** Memory with another size in the header at `p`. */
  function WithSize(ram: seq<Byte>, p: nat, dim: nat): (r: seq<Byte>)
    requires p + 1 < |ram|
    ensures |r| == |ram|
  {
    ram[p := High(dim)][p + 1 := Low(dim)]
  }

  lemma SizeReadBack(ram: seq<Byte>, p: nat, dim: nat)
    requires p + 2 < |ram|
    ensures DimAt(WithSize(ram, p, dim), p) == Wrap16(dim)
    ensures forall k :: 0 <= k < |ram| && k != p && k != p + 1 ==> WithSize(ram, p, dim)[k] == ram[k]
  {
    JoinSplit(dim);
  }

  // ----- HALLOC -----

  /** Corrupt stands for a walk that leaves memory or wraps around the 16-bit cursor; on a
      well-formed heap it does not occur. */
  datatype Search = Found(at: nat) | Overflow | Corrupt

  function FirstFit(ram: seq<Byte>, p: nat, limit: nat, n: nat): Search
    decreases limit - p
  {
    if p >= limit then Overflow
    else if p + 2 >= |ram| then Corrupt
    else if ram[p + 2] != OWNED && DimAt(ram, p) >= n then Found(p)
    else if p + DimAt(ram, p) + 3 > 0xFFFF then Corrupt
    else FirstFit(ram, p + DimAt(ram, p) + 3, limit, n)
  }

  /** The block at `p` becomes OWNED; what is left over becomes a FREE block when it exceeds a header. */
  function Carve(ram: seq<Byte>, p: nat, n: nat): Option<seq<Byte>>
    requires p + 2 < |ram|
  {
    var dim := DimAt(ram, p);
    if dim > n + 3 then
      if p + 3 + n + 2 >= |ram| then None
      else Some(WithHeader(WithHeader(ram, p + 3 + n, dim - 3 - n, FREE), p, n, OWNED))
    else Some(WithHeader(ram, p, dim, OWNED))
  }

  datatype HallocResult = Allocated(ram: seq<Byte>, ptr: Word) | HeapOverflow | HallocCorrupt

  function Halloc(ram: seq<Byte>, start: nat, limit: nat, n: nat): HallocResult {
    match FirstFit(ram, start, limit, n)
    case Overflow => HeapOverflow
    case Corrupt => HallocCorrupt
    case Found(p) =>
      FoundInside(ram, start, limit, n);
      match Carve(ram, p, n)
      case None => HallocCorrupt
      case Some(ram1) => Allocated(ram1, Wrap16(p + 3))
  }

  lemma {:induction false} FoundInside(ram: seq<Byte>, p: nat, limit: nat, n: nat)
    requires FirstFit(ram, p, limit, n).Found?
    ensures p <= FirstFit(ram, p, limit, n).at < limit && FirstFit(ram, p, limit, n).at + 2 < |ram|
    decreases limit - p
  {
    if !(ram[p + 2] != OWNED && DimAt(ram, p) >= n) { FoundInside(ram, p + DimAt(ram, p) + 3, limit, n); }
  }

  datatype Status = Done | Overflowed | NotOwned | Undefined

  method WriteHeader(ram: array<Byte>, p: nat, dim: nat, status: Byte)
    requires p + 2 < ram.Length
    modifies ram
    ensures ram[..] == WithHeader(old(ram[..]), p, dim, status)
  {
    ram[p] := High(dim);
    ram[p + 1] := Low(dim);
    ram[p + 2] := status;
  }

  method HallocInPlace(ram: array<Byte>, start: nat, limit: nat, n: nat) returns (status: Status, ptr: Word)
    modifies ram
    ensures match Halloc(old(ram[..]), start, limit, n)
      case Allocated(ram1, p) => status == Done && ptr == p && ram[..] == ram1
      case HeapOverflow => status == Overflowed && ram[..] == old(ram[..])
      case HallocCorrupt => status == Undefined
  {
    hide WithHeader;
    ptr := 0;
    var firstPart := start;
    var size := n;
    var invalid := true;
    while invalid
      invariant invalid ==> ram[..] == old(ram[..]) && size == n
      invariant invalid ==> FirstFit(old(ram[..]), start, limit, n) == FirstFit(old(ram[..]), firstPart, limit, n)
      invariant !invalid ==> Halloc(old(ram[..]), start, limit, n) == Allocated(ram[..], Wrap16(firstPart))
      decreases invalid, limit - firstPart
    {
      if firstPart >= limit {
        return Overflowed, 0;
      }
      if firstPart + 2 >= ram.Length {
        return Undefined, 0;
      }
      var dimension: nat := Join(ram[firstPart], ram[firstPart + 1]);
      if ram[firstPart + 2] != OWNED && dimension >= size {
        invalid := false;
        if dimension > size + 3 {
          var rest := firstPart + 3 + size;
          if rest + 2 >= ram.Length {
            return Undefined, 0;
          }
          var remaining := dimension - 3 - size;
          WriteHeader(ram, rest, remaining, FREE);
        } else {
          size := dimension;
        }
        WriteHeader(ram, firstPart, size, OWNED);
        firstPart := firstPart + 3;
      } else if firstPart + dimension + 3 > 0xFFFF {
        return Undefined, 0;
      } else {
        firstPart := firstPart + dimension + 3;
      }
    }
    return Done, Wrap16(firstPart);
  }

  // ----- HFREE -----

  /** The coalescing walk: on a merge the cursor stays. None is a walk that leaves memory or wraps. */
  function Coalesce(ram: seq<Byte>, p: nat, limit: nat): Option<seq<Byte>>
    decreases limit - p, if p + 2 < |ram| then 0x10000 - DimAt(ram, p) else 0
  {
    hide WithSize, DimAt;
    if p >= limit then Some(ram)
    else if p + 2 >= |ram| then None
    else
      var next := p + 3 + DimAt(ram, p);
      if next > 0xFFFF then None
      else if next >= limit then Some(ram)
      else if next + 2 >= |ram| then None
      else if ram[p + 2] == FREE && ram[next + 2] == FREE then
        var merged := DimAt(ram, p) + 3 + DimAt(ram, next);
        if merged > 0xFFFF then None
        else
          SizeReadBack(ram, p, merged);
          Coalesce(WithSize(ram, p, merged), p, limit)
      else Coalesce(ram, next, limit)
  }

  datatype HfreeResult = Freed(ram: seq<Byte>) | NotOwnedBlock | HfreeCorrupt

  function Hfree(ram: seq<Byte>, start: nat, limit: nat, ptr: Word): HfreeResult {
    var region := Wrap16(ptr - 3);
    if region + 2 >= |ram| then HfreeCorrupt
    else if ram[region + 2] != OWNED then NotOwnedBlock
    else
      match Coalesce(ram[region + 2 := FREE], start, limit)
      case None => HfreeCorrupt
      case Some(ram1) => Freed(ram1)
  }

  method HfreeInPlace(ram: array<Byte>, start: nat, limit: nat, ptr: Word) returns (status: Status)
    modifies ram
    ensures match Hfree(old(ram[..]), start, limit, ptr)
      case Freed(ram1) => status == Done && ram[..] == ram1
      case NotOwnedBlock => status == NotOwned && ram[..] == old(ram[..])
      case HfreeCorrupt => status == Undefined
  {
    var region := Wrap16(ptr - 3);
    if region + 2 >= ram.Length {
      return Undefined;
    }
    if ram[region + 2] != OWNED {
      return NotOwned;
    }
    ram[region + 2] := FREE;
    assert ram[..] == old(ram[..])[region + 2 := FREE];
    status := CoalesceInPlace(ram, start, limit);
  }

  method WriteSize(ram: array<Byte>, p: nat, dim: nat)
    requires p + 1 < ram.Length
    modifies ram
    ensures ram[..] == WithSize(old(ram[..]), p, dim)
  {
    ram[p] := High(dim);
    ram[p + 1] := Low(dim);
  }

  /** One merge of the walk. */
  lemma MergeHere(ram: seq<Byte>, p: nat, next: nat, limit: nat)
    requires p < limit && p + 2 < |ram| && next == p + 3 + DimAt(ram, p) && next <= 0xFFFF && next < limit
    requires next + 2 < |ram| && ram[p + 2] == FREE && ram[next + 2] == FREE
    requires DimAt(ram, p) + 3 + DimAt(ram, next) <= 0xFFFF
    ensures var merged := DimAt(ram, p) + 3 + DimAt(ram, next);
      && Coalesce(ram, p, limit) == Coalesce(WithSize(ram, p, merged), p, limit)
      && DimAt(WithSize(ram, p, merged), p) == merged
  {
    hide WithSize, DimAt;
    SizeReadBack(ram, p, DimAt(ram, p) + 3 + DimAt(ram, next));
  }

  method CoalesceInPlace(ram: array<Byte>, start: nat, limit: nat) returns (status: Status)
    modifies ram
    ensures match Coalesce(old(ram[..]), start, limit)
      case None => status == Undefined
      case Some(ram1) => status == Done && ram[..] == ram1
  {
    hide WithSize;
    ghost var freed: seq<Byte> := ram[..];
    var current := start;
    while current < limit
      invariant Coalesce(ram[..], current, limit) == Coalesce(freed, start, limit)
      decreases limit - current, if current + 2 < ram.Length then 0x10000 - DimAt(ram[..], current) else 0
    {
      if current + 2 >= ram.Length {
        return Undefined;
      }
      var dimension: nat := Join(ram[current], ram[current + 1]);
      var next := current + 3 + dimension;
      if next > 0xFFFF {
        return Undefined;
      }
      if next >= limit {
        break;
      }
      if next + 2 >= ram.Length {
        return Undefined;
      }
      if ram[current + 2] == FREE && ram[next + 2] == FREE {
        var merged := dimension + 3 + Join(ram[next], ram[next + 1]);
        if merged > 0xFFFF {
          return Undefined;
        }
        MergeHere(ram[..], current, next, limit);
        WriteSize(ram, current, merged);
      } else {
        current := next;
      }
    }
    return Done;
  }
}
