/** Which loops the compiler replaces: the analysis of a body, stated through sums over its lines. */
module Recognition {
  import opened Asm
  import opened CodeTrees
  import opened LoopPass
  import opened NarrowLoops

  // ----- sums over a body -----

  /** How far the data pointer has moved before line `k`. */
  function Pointer(body: seq<Line>, k: nat): int
    requires k <= |body|
  {
    if k == 0 then 0 else Pointer(body, k - 1) + if Moves(body[k - 1]) then Amount(body[k - 1]) else 0
  }

  /** The sum of what the first `k` lines add at a distance from the start. */
  function NetAt(body: seq<Line>, k: nat, offset: int): int
    requires k <= |body|
  {
    if k == 0 then 0
    else NetAt(body, k - 1, offset) + if ChangesAt(body, k - 1, offset) then Amount(body[k - 1]) else 0
  }

  /** Line `i` adds to the cell at a distance from the start. */
  predicate ChangesAt(body: seq<Line>, i: nat, offset: int)
    requires i < |body|
  {
    Changes(body[i]) && Pointer(body, i) == offset
  }

  predicate Touched(body: seq<Line>, k: nat, offset: int)
    requires k <= |body|
  {
    exists i :: 0 <= i < k && ChangesAt(body, i, offset)
  }

  /** The tally of the first `k` lines: an entry for every cell they add to, with the sum. */
  ghost predicate Tracks(body: seq<Line>, k: nat, t: Tally)
    requires k <= |body|
  {
    && t.ptr == Pointer(body, k) && DistinctOffsets(t.mods)
    && forall m :: m in t.mods <==> Touched(body, k, m.offset) && m.value == NetAt(body, k, m.offset)
  }

  /** The only entry for an offset that changes is the one that is bumped. */
  lemma BumpEntries(mods: seq<CellMod>, offset: int, delta: int, m: CellMod)
    requires DistinctOffsets(mods)
    ensures m.offset != offset ==> (m in Bump(mods, offset, delta) <==> m in mods)
    ensures m.offset == offset ==>
      (m in Bump(mods, offset, delta) <==>
         CellMod(offset, m.value - delta) in mods || (m.value == delta && forall n :: n in mods ==> n.offset != offset))
  {
    var i := IndexOf(mods, offset);
    var bumped := Bump(mods, offset, delta);
    if i < |mods| {
      assert bumped == mods[i := CellMod(offset, mods[i].value + delta)];
      assert bumped[i] == CellMod(offset, mods[i].value + delta);
      if m in mods && m.offset != offset {
        var j :| 0 <= j < |mods| && mods[j] == m;
        assert bumped[j] == m;
      }
      if CellMod(offset, m.value - delta) in mods && m.offset == offset {
        var j :| 0 <= j < |mods| && mods[j] == CellMod(offset, m.value - delta);
        assert j == i;
      }
      assert mods[i] in mods;
    } else {
      assert bumped == mods + [CellMod(offset, delta)];
    }
  }

  lemma TouchedNext(body: seq<Line>, k: nat, offset: int)
    requires k < |body|
    ensures Touched(body, k + 1, offset) <==> Touched(body, k, offset) || ChangesAt(body, k, offset)
  {
    if Touched(body, k, offset) {
      var i :| 0 <= i < k && ChangesAt(body, i, offset);
      assert i < k + 1;
    }
  }

  lemma {:induction false} UntouchedIsZero(body: seq<Line>, k: nat, offset: int)
    requires k <= |body| && !Touched(body, k, offset)
    ensures NetAt(body, k, offset) == 0
  {
    if k > 0 {
      TouchedNext(body, k - 1, offset);
      UntouchedIsZero(body, k - 1, offset);
    }
  }

  lemma {:induction false} TracksNext(body: seq<Line>, k: nat, t: Tally)
    requires k < |body| && Tracks(body, k, t) && (Moves(body[k]) || Changes(body[k]))
    ensures Tracks(body, k + 1, TallyLine(t, body[k]))
  {
    hide Bump, Touched;
    var t1 := TallyLine(t, body[k]);
    if Changes(body[k]) { BumpIsDistinct(t.mods, t.ptr, Amount(body[k])); }
    forall m: CellMod
      ensures m in t1.mods <==> Touched(body, k + 1, m.offset) && m.value == NetAt(body, k + 1, m.offset)
    {
      EntryNext(body, k, t, m);
    }
  }

  lemma EntryNext(body: seq<Line>, k: nat, t: Tally, m: CellMod)
    requires k < |body| && Tracks(body, k, t) && (Moves(body[k]) || Changes(body[k]))
    ensures m in TallyLine(t, body[k]).mods <==> Touched(body, k + 1, m.offset) && m.value == NetAt(body, k + 1, m.offset)
  {
    hide Bump, Touched;
    TouchedNext(body, k, m.offset);
    if Changes(body[k]) {
      BumpEntries(t.mods, t.ptr, Amount(body[k]), m);
      if m.offset == t.ptr {
        if Touched(body, k, m.offset) {
          assert CellMod(m.offset, NetAt(body, k, m.offset)) in t.mods;
        } else {
          UntouchedIsZero(body, k, m.offset);
        }
      }
    }
  }

  lemma {:induction false} TallyTracks(body: seq<Line>, k: nat, t: Tally)
    requires k <= |body| && Tracks(body, k, t)
    ensures TallyAll(body[k..], t).Some? <==> forall i :: k <= i < |body| ==> Moves(body[i]) || Changes(body[i])
    ensures TallyAll(body[k..], t).Some? ==> Tracks(body, |body|, TallyAll(body[k..], t).value)
    decreases |body| - k
  {
    hide TallyLine, Tracks, Moves, Changes;
    if k < |body| {
      assert body[k..][0] == body[k] && body[k..][1..] == body[k + 1..];
      if Moves(body[k]) || Changes(body[k]) {
        TracksNext(body, k, t);
        TallyTracks(body, k + 1, TallyLine(t, body[k]));
      }
    } else {
      assert body[k..] == [];
    }
  }

  /** A body passes the analysis iff it only moves and adds numerals, comes back to where it started, lowers its own
      cell by one in sum, and adds to some other cell. The result has one entry for every other cell it adds to, with
      the sum of what it adds there. */
  lemma {:induction false} AnalyseExact(body: seq<Line>)
    ensures Analyse(body).Some? <==>
      && (forall i :: 0 <= i < |body| ==> Moves(body[i]) || Changes(body[i]))
      && Pointer(body, |body|) == 0 && NetAt(body, |body|, 0) == -1
      && (exists i :: 0 <= i < |body| && Changes(body[i]) && Pointer(body, i) != 0)
    ensures Analyse(body).Some? ==>
      && DistinctOffsets(Analyse(body).value)
      && forall m :: m in Analyse(body).value
           <==> m.offset != 0 && Touched(body, |body|, m.offset) && m.value == NetAt(body, |body|, m.offset)
  {
    hide TallyAll, Moves, Changes, Bump;
    assert body[0..] == body;
    TallyTracks(body, 0, Tally([], 0));
    var tally := TallyAll(body, Tally([], 0));
    if tally.Some? {
      Verdict(body, tally.value);
    }
  }

  lemma Verdict(body: seq<Line>, t: Tally)
    requires Tracks(body, |body|, t) && TallyAll(body, Tally([], 0)) == Bytes.Some(t)
    ensures Analyse(body).Some? <==>
      && Pointer(body, |body|) == 0 && NetAt(body, |body|, 0) == -1
      && (exists i :: 0 <= i < |body| && Changes(body[i]) && Pointer(body, i) != 0)
    ensures Analyse(body).Some? ==>
      && DistinctOffsets(Analyse(body).value)
      && forall m :: m in Analyse(body).value
           <==> m.offset != 0 && Touched(body, |body|, m.offset) && m.value == NetAt(body, |body|, m.offset)
  {
    hide TallyAll, Moves, Changes, Bump, Pointer, NetAt, Touched;
    var self := IndexOf(t.mods, 0);
    if self < |t.mods| {
      var rest := t.mods[..self] + t.mods[self + 1..];
      assert t.mods[self] in t.mods;
      forall m: CellMod ensures m in rest <==> m in t.mods && m.offset != 0 { WithoutEntry(t.mods, self, m); }
      OthersTouched(body, t, rest);
    } else {
      SelfUntouched(body, t);
    }
  }

  lemma WithoutEntry(mods: seq<CellMod>, self: nat, m: CellMod)
    requires self < |mods| && DistinctOffsets(mods) && mods[self].offset == 0
    ensures var rest := mods[..self] + mods[self + 1..];
      DistinctOffsets(rest) && (m in rest <==> m in mods && m.offset != 0)
  {
    var rest := mods[..self] + mods[self + 1..];
    if m in mods && m.offset != 0 {
      var j :| 0 <= j < |mods| && mods[j] == m;
      assert rest[if j < self then j else j - 1] == m;
    }
    if m in rest {
      var j :| 0 <= j < |rest| && rest[j] == m;
      assert mods[if j < self then j else j + 1] == m;
    }
  }

  /** Something is left without the loop's own cell iff another cell is added to. */
  lemma OthersTouched(body: seq<Line>, t: Tally, rest: seq<CellMod>)
    requires Tracks(body, |body|, t)
    requires forall m :: m in rest <==> m in t.mods && m.offset != 0
    ensures rest != [] <==> exists i :: 0 <= i < |body| && Changes(body[i]) && Pointer(body, i) != 0
  {
    hide Moves, Changes, Pointer, NetAt;
    if rest != [] {
      assert rest[0] in rest;
      var i :| 0 <= i < |body| && ChangesAt(body, i, rest[0].offset);
    }
    if i :| 0 <= i < |body| && Changes(body[i]) && Pointer(body, i) != 0 {
      assert ChangesAt(body, i, Pointer(body, i));
      assert CellMod(Pointer(body, i), NetAt(body, |body|, Pointer(body, i))) in rest;
    }
  }

  /** Without an entry for it, the loop's own cell is not lowered. */
  lemma SelfUntouched(body: seq<Line>, t: Tally)
    requires Tracks(body, |body|, t) && IndexOf(t.mods, 0) == |t.mods|
    ensures NetAt(body, |body|, 0) == 0
  {
    hide Moves, Changes, Pointer;
    assert CellMod(0, NetAt(body, |body|, 0)) !in t.mods;
    UntouchedIsZero(body, |body|, 0);
  }

  // ----- which loops are found and replaced -----

  /** A loop is found at `i` iff its three opening lines are there with at least four lines behind them, and the three
      closing lines begin at the first mark that closes the same number. */
  lemma {:induction false} ParseExact(lines: seq<Line>, i: nat, id: nat, close: nat, body: seq<Line>)
    requires i < |lines|
    ensures ParseLoop(lines, i) == Bytes.Some(ParsedLoop(id, close, body)) <==>
      && i + 6 < |lines| && i + 3 <= close && close + 2 < |lines| && body == lines[i + 3..close]
      && lines[i] == Mark(StartPar(id)) && lines[i + 1] == Ins(CMP, [At(A), Num(0)])
      && lines[i + 2] == Ins(JE, [Ref(ClosePar(id))])
      && lines[close] == Mark(ClosePar(id)) && lines[close + 1] == Ins(CMP, [At(A), Num(0)])
      && lines[close + 2] == Ins(JNE, [Ref(StartPar(id))])
      && forall j :: i + 3 <= j < close ==> lines[j] != Mark(ClosePar(id))
  {
    hide FirstMark;
    if i + 3 <= |lines| {
      var first := FirstMark(lines, ClosePar(id), i + 3);
    }
  }

  /** A body is replaced iff its first line lowers the cell by one, and it is that line alone or passes the analysis. */
  lemma {:induction false} ReplacedExact(body: seq<Line>)
    ensures Replacement(body).Some? <==>
      && body != [] && body[0] == Ins(SUB, [At(A), Num(1)])
      && (|body| == 1 ||
            (&& (forall i :: 0 <= i < |body| ==> Moves(body[i]) || Changes(body[i]))
             && Pointer(body, |body|) == 0 && NetAt(body, |body|, 0) == -1
             && (exists i :: 0 <= i < |body| && Changes(body[i]) && Pointer(body, i) != 0)))
    ensures Replacement([Ins(SUB, [At(A), Num(1)])]) == Bytes.Some([Ins(MOV, [At(A), Num(0)])])
  {
    hide Analyse, Pointer, NetAt, Moves, Changes;
    AnalyseExact(body);
    if |body| == 1 { assert body == [body[0]]; }
  }

  /** The lines that the analysis accepts, by their text. */
  lemma Accepted(m: Mnemonic, n: int)
    requires m == ADD || m == SUB
    ensures Moves(Ins(m, [Direct(A), Num(n)])) && !Changes(Ins(m, [Direct(A), Num(n)]))
    ensures Changes(Ins(m, [At(A), Num(n)])) && !Moves(Ins(m, [At(A), Num(n)]))
    ensures Amount(Ins(m, [Direct(A), Num(n)])) == Amount(Ins(m, [At(A), Num(n)])) == if m == ADD then n else -n
  {
  }
}
