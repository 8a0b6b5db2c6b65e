/** What clear loops and multiply loops compute, and what their replacements compute. */
module MultiplyLoops {
  import opened Bytes
  import opened Brainfuck
  import opened Asm
  import opened Machine
  import opened FoldRuns
  import opened LoopPass

  /** The total change of the cells at distance `k` from the start, on the ring. */
  function Weight(mods: seq<CellMod>, k: int): int {
    if mods == [] then 0
    else (if (mods[0].offset - k) % 256 == 0 then mods[0].value else 0) + Weight(mods[1..], k)
  }

  function ScaledCell(cells: Ring, mods: seq<CellMod>, times: int, p: int, j: Byte): Byte {
    var cell: int := cells[j];
    Wrap(cell + times * Weight(mods, j - p))
  }

  /** Adding each change `times` times, around the cell at `p`. */
  function ScaledCells(cells: Ring, mods: seq<CellMod>, times: int, p: int): Ring {
    seq(256, j requires 0 <= j < 256 => ScaledCell(cells, mods, times, p, j))
  }

  function Scaled(s: Cpu, mods: seq<CellMod>, times: int): Cpu {
    s.(cells := ScaledCells(s.cells, mods, times, s.a))
  }

  // ----- weights -----

  lemma {:induction false} WeightAdd(a: seq<CellMod>, b: seq<CellMod>, k: int)
    ensures Weight(a + b, k) == Weight(a, k) + Weight(b, k)
  {
    if a == [] {
      assert a + b == b;
    } else {
      assert (a + b)[1..] == a[1..] + b;
      WeightAdd(a[1..], b, k);
    }
  }

  lemma WeightOne(m: CellMod, k: int)
    ensures Weight([m], k) == if (m.offset - k) % 256 == 0 then m.value else 0
  {
  }

  /** The weights around one entry. */
  lemma WeightSplit(mods: seq<CellMod>, i: nat, k: int)
    requires i < |mods|
    ensures Weight(mods, k) == Weight(mods[..i] + mods[i + 1..], k) + Weight([mods[i]], k)
  {
    assert mods == mods[..i] + ([mods[i]] + mods[i + 1..]);
    WeightAdd(mods[..i], [mods[i]] + mods[i + 1..], k);
    WeightAdd([mods[i]], mods[i + 1..], k);
    WeightAdd(mods[..i], mods[i + 1..], k);
  }

  lemma BumpWeight(mods: seq<CellMod>, offset: int, delta: int, k: int)
    ensures Weight(Bump(mods, offset, delta), k) == Weight(mods, k) + Weight([CellMod(offset, delta)], k)
  {
    var i := IndexOf(mods, offset);
    if i < |mods| {
      var bumped := mods[i := CellMod(offset, mods[i].value + delta)];
      WeightSplit(mods, i, k);
      WeightSplit(bumped, i, k);
      assert bumped[..i] + bumped[i + 1..] == mods[..i] + mods[i + 1..];
    } else {
      WeightAdd(mods, [CellMod(offset, delta)], k);
    }
  }

  lemma {:induction false} InsertWeight(m: CellMod, mods: seq<CellMod>, k: int)
    ensures Weight(InsertMod(m, mods), k) == Weight([m], k) + Weight(mods, k)
  {
    if mods == [] || m.offset <= mods[0].offset {
      WeightAdd([m], mods, k);
    } else {
      InsertWeight(m, mods[1..], k);
      WeightAdd([mods[0]], InsertMod(m, mods[1..]), k);
      WeightAdd([mods[0]], mods[1..], k);
      assert [mods[0]] + mods[1..] == mods;
    }
  }

  lemma {:induction false} SortWeight(mods: seq<CellMod>, k: int)
    ensures Weight(SortMods(mods), k) == Weight(mods, k)
  {
    if mods != [] {
      SortWeight(mods[1..], k);
      InsertWeight(mods[0], SortMods(mods[1..]), k);
      WeightAdd([mods[0]], mods[1..], k);
      assert [mods[0]] + mods[1..] == mods;
    }
  }

  /** On the ring, distance `k` from `p` is the cell Wrap(p + k). */
  lemma RingDistance(p: int, k: int, j: Byte)
    ensures (k - (j - p)) % 256 == 0 <==> j == Wrap(p + k)
  {
  }

  // ----- scaling -----

  lemma ScaledCellTwice(x: int, m: int, n: int, w: int)
    ensures Wrap(Wrap(x + m * w) + n * w) == Wrap(x + (m + n) * w)
  {
    WrapAdd(x + m * w, n * w);
    assert x + m * w + n * w == x + (m + n) * w;
  }

  lemma ScaledTwice(s: Cpu, mods: seq<CellMod>, m: int, n: int)
    ensures Scaled(Scaled(s, mods, m), mods, n) == Scaled(s, mods, m + n)
  {
    hide Weight;
    forall j: Byte
      ensures Scaled(Scaled(s, mods, m), mods, n).cells[j] == Scaled(s, mods, m + n).cells[j]
    {
      ScaledCellTwice(s.cells[j], m, n, Weight(mods, j - s.a));
    }
  }

  lemma ScaledNone(s: Cpu, mods: seq<CellMod>)
    ensures Scaled(s, mods, 0) == s
  {
    hide Weight;
    assert forall j: Byte :: Scaled(s, mods, 0).cells[j] == s.cells[j];
  }

  // ----- the body of a replaced loop -----

  /** The state after lines whose net effect is `t`. */
  function Moved(s: Cpu, t: Tally): Cpu { Scaled(s, t.mods, 1).(a := Wrap(s.a + t.ptr)) }

  lemma AmountMeans(line: Line, s: Cpu)
    requires Plain(line) && (Moves(line) || Changes(line))
    ensures Exec(line, s) == Added(s, line.args[0], Amount(line))
  {
    hide Exec, Added;
    assert line == Ins(line.m, [line.args[0], Num(line.args[1].n)]);
    AddingLine(line.args[0], line.args[1].n, s);
  }

  lemma {:induction false} TallyLineMeans(line: Line, t: Tally, s: Cpu)
    requires Plain(line) && (Moves(line) || Changes(line))
    ensures Exec(line, Moved(s, t)) == Moved(s, TallyLine(t, line))
  {
    hide Exec, Weight, Bump, Plain;
    AmountMeans(line, Moved(s, t));
    var n := Amount(line);
    if Moves(line) {
      WrapAdd(s.a + t.ptr, n);
    } else {
      var t1 := TallyLine(t, line);
      forall j: Byte
        ensures Added(Moved(s, t), At(A), n).cells[j] == Moved(s, t1).cells[j]
      {
        var k := j - s.a;
        BumpWeight(t.mods, t.ptr, n, k);
        WeightOne(CellMod(t.ptr, n), k);
        RingDistance(s.a, t.ptr, j);
        var cell: int := s.cells[j];
        WrapAdd(cell + Weight(t.mods, k), n);
      }
    }
  }

  lemma {:induction false} TallyMeans(body: seq<Line>, t: Tally, s: Cpu)
    requires TallyAll(body, t).Some? && forall i :: 0 <= i < |body| ==> Plain(body[i])
    ensures ExecAll(body, Moved(s, t)) == Moved(s, TallyAll(body, t).value)
    decreases |body|
  {
    hide Exec, Plain, Moved, TallyLine;
    if body != [] {
      TallyLineMeans(body[0], t, s);
      TallyMeans(body[1..], TallyLine(t, body[0]), s);
    }
  }

  /** All changes made by one round of a replaced loop, its countdown included. */
  function Net(body: seq<Line>): seq<CellMod>
    requires TallyAll(body, Tally([], 0)).Some?
  {
    TallyAll(body, Tally([], 0)).value.mods
  }

  lemma ReplacedIsTallied(body: seq<Line>)
    requires Replacement(body).Some?
    ensures TallyAll(body, Tally([], 0)).Some? && TallyAll(body, Tally([], 0)).value.ptr == 0
    ensures body == CLEAR_BODY ==> Net(body) == [CellMod(0, -1)]
    ensures body != CLEAR_BODY ==> Analyse(body).Some? && Replacement(body) == Some(MulLines(Analyse(body).value))
  {
    if body == CLEAR_BODY {
      assert body[1..] == [];
      assert TallyAll(body, Tally([], 0)) == TallyAll(body[1..], TallyLine(Tally([], 0), body[0]));
    }
  }

  /** One round of a replaced loop adds its net changes and leaves the pointer where it was. */
  lemma RoundMeans(body: seq<Line>, s: Cpu)
    requires Replacement(body).Some? && forall i :: 0 <= i < |body| ==> Plain(body[i])
    ensures TallyAll(body, Tally([], 0)).Some? && ExecAll(body, s) == Scaled(s, Net(body), 1)
  {
    hide Replacement, Plain, TallyAll, ExecAll, ScaledCells;
    ReplacedIsTallied(body);
    TallyMeans(body, Tally([], 0), s);
    ScaledByNothing(s.cells, 1, s.a);
  }

  // ----- the emitted code -----

  lemma MoveByMeans(d: int, s: Cpu)
    ensures forall i :: 0 <= i < |MoveBy(d)| ==> Plain(MoveBy(d)[i])
    ensures ExecAll(MoveBy(d), s) == s.(a := Wrap(s.a + d))
  {
    hide Exec, Plain;
    AddingLine(Direct(A), d, s);
    AddingLine(Direct(A), -d, s);
    if d != 0 { ExecOne(MoveBy(d)[0], s); }
  }

  /** The current cell grows by `value` times B; B survives unless this is the last change. */
  lemma AddScaledMeans(value: int, last: bool, s: Cpu)
    ensures forall i :: 0 <= i < |AddScaled(value, last)| ==> Plain(AddScaled(value, last)[i])
    ensures var r := ExecAll(AddScaled(value, last), s);
      && Core(r) == Core(Added(s, At(A), s.b * value))
      && (!last ==> r.b == s.b)
  {
    hide Exec, Plain;
    if value == 1 {
      AddRegister(s);
      ExecOne(ADD_B, s);
    } else if value == -1 {
      SubRegister(s);
      ExecOne(Ins(SUB, [At(A), Direct(B)]), s);
    } else if last {
      var s1 := s.(b := Wrap(s.b * value));
      ScaleB(value, s);
      AddRegister(s1);
      ExecTwo(Ins(MUL, [Direct(B), Num(value)]), ADD_B, s);
      AddProduct(s, s1, value);
    } else {
      var s1 := s.(c := Wrap(s.b * value));
      ScaleC(value, s);
      ScaleC(value, s.(c := s.b));
      AddRegister(s1);
      ExecThree(Ins(MOV, [Direct(C), Direct(B)]), Ins(MUL, [Direct(C), Num(value)]), ADD_C, s);
      AddProduct(s, s1, value);
    }
  }

  const ADD_B := Ins(ADD, [At(A), Direct(B)])

  const ADD_C := Ins(ADD, [At(A), Direct(C)])

  /** What the single lines of AddScaled do. */
  lemma AddRegister(s: Cpu)
    ensures Plain(ADD_B) && Exec(ADD_B, s) == Added(s, At(A), s.b)
    ensures Plain(ADD_C) && Exec(ADD_C, s) == Added(s, At(A), s.c)
  {
  }

  lemma SubRegister(s: Cpu)
    ensures var sub := Ins(SUB, [At(A), Direct(B)]); Plain(sub) && Exec(sub, s) == Added(s, At(A), s.b * -1)
  {
  }

  lemma ScaleB(value: int, s: Cpu)
    ensures var scale := Ins(MUL, [Direct(B), Num(value)]); Plain(scale) && Exec(scale, s) == s.(b := Wrap(s.b * value))
  {
    WrapMul(s.b, value);
  }

  lemma ScaleC(value: int, s: Cpu)
    ensures var copy := Ins(MOV, [Direct(C), Direct(B)]); Plain(copy) && Exec(copy, s) == s.(c := s.b)
    ensures var scale := Ins(MUL, [Direct(C), Num(value)]); Plain(scale) && Exec(scale, s) == s.(c := Wrap(s.c * value))
  {
    WrapMul(s.c, value);
  }

  /** Adding a truncated product is adding the product. */
  lemma AddProduct(s: Cpu, s1: Cpu, value: int)
    requires Core(s1) == Core(s)
    ensures Core(Added(s1, At(A), Wrap(s.b * value))) == Core(Added(s, At(A), s.b * value))
    ensures Added(s1, At(A), Wrap(s.b * value)).b == s1.b
  {
    var cell: int := s.cells[s.a];
    WrapAdd(cell, s.b * value);
  }

  lemma ExecTwo(x: Line, y: Line, s: Cpu)
    requires Plain(x) && Plain(y)
    ensures ExecAll([x, y], s) == Exec(y, Exec(x, s))
  {
    hide Exec, Plain;
    assert [x, y][1..] == [y];
    ExecOne(y, Exec(x, s));
  }

  lemma ExecThree(x: Line, y: Line, z: Line, s: Cpu)
    requires Plain(x) && Plain(y) && Plain(z)
    ensures ExecAll([x, y, z], s) == Exec(z, Exec(y, Exec(x, s)))
  {
    hide Exec, Plain;
    assert [x, y, z][1..] == [y, z];
    ExecTwo(y, z, Exec(x, s));
  }

  lemma {:induction false} ExecAllAdd(xs: seq<Line>, ys: seq<Line>, s: Cpu)
    requires forall i :: 0 <= i < |xs| ==> Plain(xs[i])
    requires forall i :: 0 <= i < |ys| ==> Plain(ys[i])
    ensures forall i :: 0 <= i < |xs + ys| ==> Plain((xs + ys)[i])
    ensures ExecAll(xs + ys, s) == ExecAll(ys, ExecAll(xs, s))
    decreases |xs|
  {
    hide Exec, Plain;
    if xs == [] {
      assert xs + ys == ys;
    } else {
      assert (xs + ys)[1..] == xs[1..] + ys;
      ExecAllAdd(xs[1..], ys, Exec(xs[0], s));
    }
  }

  /** Changing the cell of the first entry, then scaling by the others, scales by all of them. */
  lemma ScaledFirst(cells: Ring, mods: seq<CellMod>, times: int, p: int)
    requires mods != []
    ensures var q := Wrap(p + mods[0].offset); var cell: int := cells[q];
      ScaledCells(cells[q := Wrap(cell + times * mods[0].value)], mods[1..], times, p)
        == ScaledCells(cells, mods, times, p)
  {
    var q := Wrap(p + mods[0].offset);
    var cell: int := cells[q];
    var cells1: Ring := cells[q := Wrap(cell + times * mods[0].value)];
    forall j: Byte
      ensures ScaledCell(cells1, mods[1..], times, p, j) == ScaledCell(cells, mods, times, p, j)
    {
      RingDistance(p, mods[0].offset, j);
      ScaledCellFirst(cell, mods[0].value, Weight(mods[1..], j - p), times);
    }
  }

  lemma ScaledCellFirst(cell: int, value: int, w: int, times: int)
    ensures Wrap(Wrap(cell + times * value) + times * w) == Wrap(cell + times * (value + w))
  {
    WrapAdd(cell + times * value, times * w);
    assert times * (value + w) == times * value + times * w;
  }

  lemma {:induction false} MulStepsMeans(mods: seq<CellMod>, cur: int, s: Cpu, p: Byte, v: Byte)
    requires s.a == Wrap(p + cur) && (mods != [] ==> s.b == v)
    ensures forall i :: 0 <= i < |MulSteps(mods, cur)| ==> Plain(MulSteps(mods, cur)[i])
    ensures Core(ExecAll(MulSteps(mods, cur), s)) == Core(s).(cells := ScaledCells(s.cells, mods, v, p), a := p)
    decreases |mods|
  {
    hide Exec, Plain, ExecAll, ScaledCells, MoveBy, AddScaled, MulSteps;
    MulStepsIs(mods, cur);
    if mods == [] {
      MoveByMeans(-cur, s);
      WrapAdd(p + cur, -cur);
      ScaledByNothing(s.cells, v, p);
    } else {
      var m := mods[0];
      var first := MoveBy(m.offset - cur) + AddScaled(m.value, |mods| == 1);
      var s2 := FirstStepMeans(m, |mods| == 1, cur, s, p, v);
      MulStepsMeans(mods[1..], m.offset, s2, p, v);
      ScaledFirst(s.cells, mods, v, p);
      ExecAllAdd(first, MulSteps(mods[1..], m.offset), s);
    }
  }

  lemma MulStepsIs(mods: seq<CellMod>, cur: int)
    ensures mods == [] ==> MulSteps(mods, cur) == MoveBy(-cur)
    ensures mods != [] ==>
      MulSteps(mods, cur)
        == MoveBy(mods[0].offset - cur) + AddScaled(mods[0].value, |mods| == 1) + MulSteps(mods[1..], mods[0].offset)
  {
  }

  /** Moving to one changed cell and changing it. */
  lemma FirstStepMeans(m: CellMod, last: bool, cur: int, s: Cpu, p: Byte, v: Byte) returns (s2: Cpu)
    requires s.a == Wrap(p + cur) && s.b == v
    ensures var first := MoveBy(m.offset - cur) + AddScaled(m.value, last);
      (forall i :: 0 <= i < |first| ==> Plain(first[i])) && s2 == ExecAll(first, s)
    ensures var q := Wrap(p + m.offset); var cell: int := s.cells[q];
      Core(s2) == Core(s).(a := q, cells := s.cells[q := Wrap(cell + v * m.value)])
    ensures !last ==> s2.b == v
  {
    hide Exec, Plain, ExecAll, MoveBy, AddScaled;
    MoveByMeans(m.offset - cur, s);
    WrapAdd(p + cur, m.offset - cur);
    var s1 := s.(a := Wrap(p + m.offset));
    AddScaledMeans(m.value, last, s1);
    s2 := ExecAll(AddScaled(m.value, last), s1);
    ExecAllAdd(MoveBy(m.offset - cur), AddScaled(m.value, last), s);
  }

  lemma ScaledByNothing(cells: Ring, times: int, p: int)
    ensures ScaledCells(cells, [], times, p) == cells
  {
    assert forall j: Byte :: ScaledCell(cells, [], times, p, j) == cells[j];
  }

  lemma HeadMeans(s: Cpu)
    ensures Plain(Ins(MOV, [Direct(B), At(A)])) && Plain(CLEAR_LINE)
    ensures Exec(CLEAR_LINE, Exec(Ins(MOV, [Direct(B), At(A)]), s)) == s.(b := s.cells[s.a], cells := s.cells[s.a := 0])
  {
  }

  lemma MulLinesMeans(mods: seq<CellMod>, s: Cpu)
    ensures forall i :: 0 <= i < |MulLines(mods)| ==> Plain(MulLines(mods)[i])
    ensures Core(ExecAll(MulLines(mods), s))
         == Core(s).(cells := ScaledCells(s.cells[s.a := 0], mods, s.cells[s.a], s.a))
  {
    hide Exec, Plain, ExecAll, Weight, MulSteps, ScaledCells, SortMods;
    var v := s.cells[s.a];
    var copy := Ins(MOV, [Direct(B), At(A)]);
    var s1 := s.(b := v, cells := s.cells[s.a := 0]);
    HeadMeans(s);
    ExecTwo(copy, CLEAR_LINE, s);
    MulStepsMeans(SortMods(mods), 0, s1, s.a, v);
    ExecAllAdd([copy, CLEAR_LINE], MulSteps(SortMods(mods), 0), s);
    SortScaled(s1.cells, mods, v, s.a);
  }

  lemma SortScaled(cells: Ring, mods: seq<CellMod>, times: int, p: int)
    ensures ScaledCells(cells, SortMods(mods), times, p) == ScaledCells(cells, mods, times, p)
  {
    hide Weight, SortMods;
    forall j: Byte
      ensures ScaledCell(cells, SortMods(mods), times, p, j) == ScaledCell(cells, mods, times, p, j)
    {
      SortWeight(mods, j - p);
    }
  }

  /** The replacement adds each net change once per round that the cell counts. */
  lemma ReplacementMeans(body: seq<Line>, s: Cpu)
    requires Replacement(body).Some?
    ensures TallyAll(body, Tally([], 0)).Some?
    ensures var code := Replacement(body).value;
      && (forall i :: 0 <= i < |code| ==> Plain(code[i]))
      && Core(ExecAll(code, s)) == Core(Scaled(s, Net(body), s.cells[s.a]))
  {
    hide Weight, ScaledCells, MulLines;
    ReplacedIsTallied(body);
    var v: int := s.cells[s.a];
    if body == CLEAR_BODY {
      ExecOne(CLEAR_LINE, s);
      assert Net(body)[0] == CellMod(0, -1) && [] == Net(body)[..0] + Net(body)[0 + 1..];
      CountdownCells(s.cells, [], Net(body), s.a);
      ScaledByNothing(s.cells[s.a := 0], v, s.a);
    } else {
      var mods := Analyse(body).value;
      MulLinesMeans(mods, s);
      AnalysedCountdown(body);
      CountdownCells(s.cells, mods, Net(body), s.a);
    }
  }

  lemma AnalysedCountdown(body: seq<Line>)
    requires Analyse(body).Some?
    ensures IsCountdown(Analyse(body).value, Net(body))
  {
    var mods := Net(body);
    var i := IndexOf(mods, 0);
    assert mods[i] == CellMod(0, -1);
  }

  predicate IsCountdown(rest: seq<CellMod>, mods: seq<CellMod>) {
    exists i :: 0 <= i < |mods| && mods[i] == CellMod(0, -1) && rest == mods[..i] + mods[i + 1..]
  }

  /** Counting the cell at `p` down to 0 is the same as clearing it first. */
  lemma {:induction false} CountdownCells(cells: Ring, rest: seq<CellMod>, mods: seq<CellMod>, p: Byte)
    requires IsCountdown(rest, mods)
    ensures ScaledCells(cells[p := 0], rest, cells[p], p) == ScaledCells(cells, mods, cells[p], p)
  {
    var v: int := cells[p];
    var cleared: Ring := cells[p := 0];
    var i :| 0 <= i < |mods| && mods[i] == CellMod(0, -1) && rest == mods[..i] + mods[i + 1..];
    forall j: Byte
      ensures ScaledCell(cleared, rest, v, p, j) == ScaledCell(cells, mods, v, p, j)
    {
      WeightSplit(mods, i, j - p);
      WeightOne(mods[i], j - p);
      RingDistance(p, 0, j);
      assert v * (Weight(rest, j - p) + -1) == v * Weight(rest, j - p) - v;
    }
  }
}
