/** The one condition on numerals also makes every loop replacement right: a change at a non-zero
    multiple of 256 cannot be written without a numeral above 255. */
module NarrowLoops {
  import opened Asm
  import opened CodeTrees
  import opened FoldRuns
  import opened LoopPass
  import opened MultiplyLoops
  import opened LoopTrees

  lemma NarrowParts(a: seq<Line>, b: seq<Line>)
    ensures Narrow(a + b) <==> Narrow(a) && Narrow(b)
  {
    if Narrow(a + b) {
      forall i | 0 <= i < |a| ensures NarrowLine(a[i]) { assert (a + b)[i] == a[i]; }
      forall i | 0 <= i < |b| ensures NarrowLine(b[i]) { assert (a + b)[|a| + i] == b[i]; }
    }
  }

  predicate DistinctOffsets(mods: seq<CellMod>) {
    forall i, j :: 0 <= i < j < |mods| ==> mods[i].offset != mods[j].offset
  }

  lemma BumpIsDistinct(mods: seq<CellMod>, offset: int, delta: int)
    requires DistinctOffsets(mods)
    ensures DistinctOffsets(Bump(mods, offset, delta))
  {
    hide IndexOf;
  }

  lemma {:induction false} TallyIsDistinct(body: seq<Line>, t: Tally)
    requires DistinctOffsets(t.mods) && TallyAll(body, t).Some?
    ensures DistinctOffsets(TallyAll(body, t).value.mods)
    decreases |body|
  {
    hide Bump, DistinctOffsets;
    if body != [] {
      if Changes(body[0]) { BumpIsDistinct(t.mods, t.ptr, Amount(body[0])); }
      TallyIsDistinct(body[1..], TallyLine(t, body[0]));
    }
  }

  /** The countdown is the only change at offset 0. */
  lemma AnalysedAway(body: seq<Line>)
    requires Analyse(body).Some?
    ensures forall i :: 0 <= i < |Analyse(body).value| ==> Analyse(body).value[i].offset != 0
    ensures Weight(Net(body), 0) == Weight(Analyse(body).value, 0) - 1
  {
    TallyIsDistinct(body, Tally([], 0));
    AnalysedParts(body);
    var self := IndexOf(Net(body), 0);
    hide Analyse, Net, IndexOf, Weight;
    WithoutSelf(Net(body), self);
    WeightSplit(Net(body), self, 0);
    WeightOne(Net(body)[self], 0);
  }

  lemma AnalysedParts(body: seq<Line>)
    requires Analyse(body).Some?
    ensures TallyAll(body, Tally([], 0)).Some?
    ensures var mods := Net(body); var self := IndexOf(mods, 0);
      self < |mods| && mods[self] == CellMod(0, -1) && Analyse(body).value == mods[..self] + mods[self + 1..]
  {
    hide TallyAll;
  }

  lemma WithoutSelf(mods: seq<CellMod>, self: nat)
    requires DistinctOffsets(mods) && self < |mods| && mods[self].offset == 0
    ensures var rest := mods[..self] + mods[self + 1..];
      forall i :: 0 <= i < |rest| ==> rest[i].offset != 0
  {
    var rest := mods[..self] + mods[self + 1..];
    forall i | 0 <= i < |rest| ensures rest[i].offset != 0 {
      assert rest[i] == mods[if i < self then i else i + 1];
    }
  }

  lemma NarrowMove(d: int)
    requires Narrow(MoveBy(d))
    ensures -255 <= d <= 255
  {
    if d != 0 { assert NarrowLine(MoveBy(d)[0]) && NarrowOperand(MoveBy(d)[0].args[1]); }
  }

  /** The first step of the emitted code leads to the lowest offset, the last one back from the highest. */
  lemma {:induction false} NarrowSteps(mods: seq<CellMod>, cur: int)
    requires SortedByOffset(mods) && mods != [] && Narrow(MulSteps(mods, cur))
    ensures -255 <= mods[0].offset - cur
    ensures forall i :: 0 <= i < |mods| ==> mods[0].offset <= mods[i].offset <= 255
    decreases |mods|
  {
    hide Narrow, MoveBy, AddScaled;
    var m := mods[0];
    var scaled := AddScaled(m.value, |mods| == 1);
    NarrowParts(MoveBy(m.offset - cur) + scaled, MulSteps(mods[1..], m.offset));
    NarrowParts(MoveBy(m.offset - cur), scaled);
    NarrowMove(m.offset - cur);
    if |mods| == 1 {
      NarrowMove(-m.offset);
    } else {
      NarrowSteps(mods[1..], m.offset);
      assert forall i :: 1 <= i < |mods| ==> mods[i] == mods[1..][i - 1];
      assert mods[0].offset <= mods[1].offset;
    }
  }

  lemma {:induction false} NoWeightNear(mods: seq<CellMod>)
    requires forall i :: 0 <= i < |mods| ==> mods[i].offset != 0 && -255 <= mods[i].offset <= 255
    ensures Weight(mods, 0) == 0
  {
    if mods != [] { NoWeightNear(mods[1..]); }
  }

  /** A replacement without wide numerals is right. */
  lemma NarrowCountsDown(body: seq<Line>)
    requires Replacement(body).Some? && Narrow(Replacement(body).value)
    ensures TallyAll(body, Tally([], 0)).Some? && CountsDown(body)
  {
    ReplacedIsTallied(body);
    hide Replacement, Analyse, Net, MulLines, TallyAll, Narrow;
    if body == CLEAR_BODY {
      WeightOne(CellMod(0, -1), 0);
    } else {
      var mods := Analyse(body).value;
      AnalysedAway(body);
      NarrowMods(mods);
      NoWeightNear(mods);
    }
  }

  lemma NarrowMods(mods: seq<CellMod>)
    requires Narrow(MulLines(mods))
    ensures forall i :: 0 <= i < |mods| ==> -255 <= mods[i].offset <= 255
  {
    hide Narrow, MulSteps, SortMods;
    var sorted := SortMods(mods);
    SortModsSorts(mods);
    NarrowParts([Ins(MOV, [Direct(B), At(A)]), CLEAR_LINE], MulSteps(sorted, 0));
    forall i | 0 <= i < |mods| ensures -255 <= mods[i].offset <= 255 {
      assert mods[i] in multiset(mods);
      assert mods[i] in multiset(sorted);
      var j :| 0 <= j < |sorted| && sorted[j] == mods[i];
      NarrowSteps(sorted, 0);
    }
  }

  /** Optimised code without numerals above 255 has only right replacements. */
  lemma {:induction false} NarrowIsSafe(c: Code)
    requires Narrow(Flatten(OptTree(c)))
    ensures Countdowns(c)
  {
    hide Narrow, Replacement, CountsDown, TallyAll;
    match c
    case Done =>
    case Then(line, rest) =>
      NarrowParts([line], Flatten(OptTree(rest)));
      NarrowIsSafe(rest);
    case While(id, body, rest) =>
      if Replacement(Flatten(body)).Some? {
        var code := Replacement(Flatten(body)).value;
        FlattenPrepend(code, OptTree(rest));
        NarrowParts(code, Flatten(OptTree(rest)));
        NarrowCountsDown(Flatten(body));
        StraightIsSafe(body);
        NarrowIsSafe(rest);
      } else {
        FlattenWhile(OptTree(c));
        NarrowParts(Open(id) + Flatten(OptTree(body)) + Close(id), Flatten(OptTree(rest)));
        NarrowParts(Open(id) + Flatten(OptTree(body)), Close(id));
        NarrowParts(Open(id), Flatten(OptTree(body)));
        NarrowIsSafe(body);
        NarrowIsSafe(rest);
      }
  }

  lemma StraightIsSafe(body: Code)
    requires Replacement(Flatten(body)).Some?
    ensures Countdowns(body)
  {
    hide Replacement, CountsDown;
    ReplacedIsTallied(Flatten(body));
    TalliedIsSafe(body, Tally([], 0));
  }

  lemma {:induction false} TalliedIsSafe(body: Code, t: Tally)
    requires TallyAll(Flatten(body), t).Some?
    ensures Countdowns(body)
    decreases body
  {
    hide CountsDown, TallyLine, Replacement;
    match body
    case Done =>
    case Then(line, rest) =>
      assert Flatten(body)[1..] == Flatten(rest);
      TalliedIsSafe(rest, TallyLine(t, line));
    case While(_, _, _) =>
      LoopIsNotTallied(body, t);
      assert false;
  }
}
