/** What the folding pass does to a run of lines that begin alike, whatever the lines go on with. */
module StepRuns {
  import opened Asm
  import opened Machine
  import opened CodeTrees
  import opened FoldRuns

  /** The text of the line begins with "ADD [A]" or "SUB [A]", or with "ADD A" or "SUB A". */
  predicate Alike(line: Line, cell: bool) {
    && line.Ins? && (line.m == ADD || line.m == SUB) && line.args != []
    && if cell then line.args[0] == At(A)
       else line.args[0] == Direct(A) || (line.args[0].Ref? && line.args[0].l.Other? && "A" <= line.args[0].l.name)
  }

  /** Lines that add, less lines that subtract: every line counts for one, whatever its numeral. */
  function Net(run: seq<Line>): int {
    if run == [] then 0 else (if run[0].Ins? && run[0].m == ADD then 1 else -1) + Net(run[1..])
  }

  /** One line for a net count that is not 0. */
  function Summary(cell: bool, n: int): Line
    requires n != 0
  {
    Ins(if n > 0 then ADD else SUB, [if cell then At(A) else Direct(A), Num(if n > 0 then n else -n)])
  }

  lemma AlikeKind(line: Line)
    ensures Alike(line, true) <==> KindOf(line).CellStep?
    ensures Alike(line, false) <==> KindOf(line).PtrStep?
    ensures Alike(line, true) || Alike(line, false) ==>
      KindOf(line) == var d := if line.m == ADD then 1 else -1; if Alike(line, true) then CellStep(d) else PtrStep(d)
  {
  }

  /** A run in which one kind outnumbers the other becomes one line. It ends at the first line that is not alike; that
      line is kept as it is, and folding begins anew behind it. */
  lemma {:induction false} RunFolds(run: seq<Line>, rest: seq<Line>, cell: bool)
    requires forall i :: 0 <= i < |run| ==> Alike(run[i], cell)
    requires Net(run) != 0 && (rest == [] || !Alike(rest[0], cell))
    ensures Fold(run + rest, IDLE)
         == [Summary(cell, Net(run))] + if rest == [] then [] else [rest[0]] + Fold(rest[1..], IDLE)
  {
    hide Fold, Net;
    NetNothing(run);
    AlikeKind(run[0]);
    NetNext(run);
    assert (run + rest)[0] == run[0] && (run + rest)[1..] == run[1..] + rest;
    FoldLine(run + rest, IDLE);
    RestFolds(run[1..], rest, cell, if run[0].m == ADD then 1 else -1);
    assert [] + Fold(run[1..] + rest, Next(IDLE, run[0])) == Fold(run[1..] + rest, Next(IDLE, run[0]));
  }

  lemma {:induction false} RestFolds(run: seq<Line>, rest: seq<Line>, cell: bool, acc: int)
    requires forall i :: 0 <= i < |run| ==> Alike(run[i], cell)
    requires acc + Net(run) != 0 && (rest == [] || !Alike(rest[0], cell))
    ensures Fold(run + rest, Pending(cell, !cell, acc))
         == [Summary(cell, acc + Net(run))] + if rest == [] then [] else [rest[0]] + Fold(rest[1..], IDLE)
    decreases |run|
  {
    hide Fold, Net;
    var st := Pending(cell, !cell, acc);
    NetNothing(run);
    FoldLine(run + rest, st);
    if run == [] {
      assert run + rest == rest;
      if rest != [] {
        AlikeKind(rest[0]);
        assert Emitted(st, rest[0]) == [Summary(cell, acc)] + [rest[0]];
        Bytes.Associate([Summary(cell, acc)], [rest[0]], Fold(rest[1..], IDLE));
      }
    } else {
      AlikeKind(run[0]);
      NetNext(run);
      assert (run + rest)[0] == run[0] && (run + rest)[1..] == run[1..] + rest;
      RestFolds(run[1..], rest, cell, acc + if run[0].m == ADD then 1 else -1);
      assert [] + Fold(run[1..] + rest, Next(st, run[0])) == Fold(run[1..] + rest, Next(st, run[0]));
    }
  }

  lemma FoldLine(lines: seq<Line>, st: Pending)
    ensures Fold(lines, st) == if lines == [] then FlushLines(st) else Emitted(st, lines[0]) + Fold(lines[1..], Next(st, lines[0]))
  {
  }

  lemma NetNothing(run: seq<Line>)
    ensures run == [] ==> Net(run) == 0
  {
  }

  lemma NetNext(run: seq<Line>)
    requires run != [] && run[0].Ins?
    ensures Net(run) == (if run[0].m == ADD then 1 else -1) + Net(run[1..])
  {
  }
}
