/** `Brainfvck::apply_loop_optimizations`: clear loops and multiply loops become straight-line code.
    This module holds the pass as the source writes it, over flat lines. */
module LoopPass {
  import opened Bytes
  import opened Asm
  import opened CodeTrees

  datatype CellMod = CellMod(offset: int, value: int)

  datatype ParsedLoop = ParsedLoop(id: nat, closeIdx: nat, body: seq<Line>)

  const CLEAR_BODY: seq<Line> := [Ins(SUB, [At(A), Num(1)])]

  const CLEAR_LINE := Ins(MOV, [At(A), Num(0)])

  // ----- recognising a loop -----

  /** The first index from `k` on that defines `l`, or the number of lines. */
  function FirstMark(lines: seq<Line>, l: Label, k: nat): (i: nat)
    requires k <= |lines|
    ensures k <= i <= |lines|
    ensures i < |lines| ==> lines[i] == Mark(l)
    ensures forall j :: k <= j < i ==> lines[j] != Mark(l)
    decreases |lines| - k
  {
    if k == |lines| || lines[k] == Mark(l) then k else FirstMark(lines, l, k + 1)
  }

  function ParseLoop(lines: seq<Line>, i: nat): Option<ParsedLoop>
    requires i < |lines|
  {
    if !(lines[i].Mark? && lines[i].l.StartPar?) then None
    else
      var id := lines[i].l.id;
      if i + 6 >= |lines| || lines[i + 1] != TEST_ZERO || lines[i + 2] != Ins(JE, [Ref(ClosePar(id))]) then None
      else
        var close := FirstMark(lines, ClosePar(id), i + 3);
        if close + 2 >= |lines| || lines[close + 1] != TEST_ZERO || lines[close + 2] != Ins(JNE, [Ref(StartPar(id))])
        then None
        else Some(ParsedLoop(id, close, lines[i + 3..close]))
  }

  method TryParseLoop(lines: seq<Line>, i: nat) returns (r: Option<ParsedLoop>)
    requires i < |lines|
    ensures r == ParseLoop(lines, i)
  {
    if !(lines[i].Mark? && lines[i].l.StartPar?) {
      return None;
    }
    var id := lines[i].l.id;
    if i + 6 >= |lines| {
      return None;
    }
    if lines[i + 1] != TEST_ZERO || lines[i + 2] != Ins(JE, [Ref(ClosePar(id))]) {
      return None;
    }
    var closeIdx := i + 3;
    while closeIdx < |lines| && lines[closeIdx] != Mark(ClosePar(id))
      invariant i + 3 <= closeIdx <= |lines|
      invariant FirstMark(lines, ClosePar(id), closeIdx) == FirstMark(lines, ClosePar(id), i + 3)
    {
      closeIdx := closeIdx + 1;
    }
    if closeIdx >= |lines| || closeIdx + 2 >= |lines| {
      return None;
    }
    if lines[closeIdx + 1] != TEST_ZERO || lines[closeIdx + 2] != Ins(JNE, [Ref(StartPar(id))]) {
      return None;
    }
    return Some(ParsedLoop(id, closeIdx, lines[i + 3..closeIdx]));
  }

  // ----- analysing a body -----

  /** A line that moves the pointer by a numeral, or adds one to the current cell. */
  predicate Moves(line: Line) { line.Ins? && line.m in {ADD, SUB} && |line.args| >= 2 && line.args[0] == Direct(A) && line.args[1].Num? }

  predicate Changes(line: Line) { line.Ins? && line.m in {ADD, SUB} && |line.args| >= 2 && line.args[0] == At(A) && line.args[1].Num? }

  function Amount(line: Line): int
    requires Moves(line) || Changes(line)
  {
    if line.m == ADD then line.args[1].n else -line.args[1].n
  }

  /** The position of the entry for `offset`, or the number of entries. */
  function IndexOf(mods: seq<CellMod>, offset: int): (i: nat)
    ensures i <= |mods|
    ensures i < |mods| ==> mods[i].offset == offset
    ensures forall j :: 0 <= j < i ==> mods[j].offset != offset
  {
    if mods == [] || mods[0].offset == offset then 0 else 1 + IndexOf(mods[1..], offset)
  }

  /** Adds `delta` to the entry for `offset`, which is created at the end when it is missing. */
  function Bump(mods: seq<CellMod>, offset: int, delta: int): seq<CellMod> {
    var i := IndexOf(mods, offset);
    if i < |mods| then mods[i := CellMod(offset, mods[i].value + delta)] else mods + [CellMod(offset, delta)]
  }

  datatype Tally = Tally(mods: seq<CellMod>, ptr: int)

  function TallyLine(t: Tally, line: Line): Tally
    requires Moves(line) || Changes(line)
  {
    if Moves(line) then t.(ptr := t.ptr + Amount(line)) else t.(mods := Bump(t.mods, t.ptr, Amount(line)))
  }

  /** Net changes of a straight body, by offset from where it starts; None at any other line. */
  function TallyAll(body: seq<Line>, t: Tally): Option<Tally>
    decreases |body|
  {
    if body == [] then Some(t)
    else if Moves(body[0]) || Changes(body[0]) then TallyAll(body[1..], TallyLine(t, body[0]))
    else None
  }

  /** The changes of a multiply loop other than its own countdown, or None when it is not one. */
  function Analyse(body: seq<Line>): Option<seq<CellMod>> {
    match TallyAll(body, Tally([], 0))
    case None => None
    case Some(t) =>
      var self := IndexOf(t.mods, 0);
      if t.ptr != 0 || self == |t.mods| || t.mods[self].value != -1 then None
      else
        var mods := t.mods[..self] + t.mods[self + 1..];
        if mods == [] then None else Some(mods)
  }

  method FindOffset(mods: seq<CellMod>, offset: int) returns (i: nat)
    ensures i == IndexOf(mods, offset)
  {
    i := 0;
    assert mods[0..] == mods;
    while i < |mods| && mods[i].offset != offset
      invariant 0 <= i <= |mods|
      invariant i + IndexOf(mods[i..], offset) == IndexOf(mods, offset)
    {
      assert mods[i..][1..] == mods[i + 1..];
      i := i + 1;
    }
  }

  method TryAnalyzeMultBody(body: seq<Line>) returns (r: Option<seq<CellMod>>)
    ensures r == Analyse(body)
  {
    var mods: seq<CellMod>, ptr := [], 0;
    var i := 0;
    assert body[0..] == body;
    while i < |body|
      invariant 0 <= i <= |body|
      invariant TallyAll(body[i..], Tally(mods, ptr)) == TallyAll(body, Tally([], 0))
    {
      var line := body[i];
      assert body[i..][1..] == body[i + 1..];
      if Moves(line) {
        ptr := ptr + Amount(line);
      } else if Changes(line) {
        var at := FindOffset(mods, ptr);
        if at < |mods| {
          mods := mods[at := CellMod(ptr, mods[at].value + Amount(line))];
        } else {
          mods := mods + [CellMod(ptr, Amount(line))];
        }
      } else {
        return None;
      }
      i := i + 1;
    }
    if ptr != 0 {
      return None;
    }
    var self := FindOffset(mods, 0);
    if self == |mods| || mods[self].value != -1 {
      return None;
    }
    mods := mods[..self] + mods[self + 1..];
    if mods == [] {
      return None;
    }
    return Some(mods);
  }

  // ----- writing the replacement -----

  predicate SortedByOffset(mods: seq<CellMod>) {
    forall i, j :: 0 <= i < j < |mods| ==> mods[i].offset <= mods[j].offset
  }

  function InsertMod(m: CellMod, mods: seq<CellMod>): seq<CellMod> {
    if mods == [] || m.offset <= mods[0].offset then [m] + mods
    else [mods[0]] + InsertMod(m, mods[1..])
  }

  /** `std::ranges::sort` by offset. */
  function SortMods(mods: seq<CellMod>): seq<CellMod> {
    if mods == [] then [] else InsertMod(mods[0], SortMods(mods[1..]))
  }

  lemma {:induction false} InsertSorts(m: CellMod, mods: seq<CellMod>)
    requires SortedByOffset(mods)
    ensures SortedByOffset(InsertMod(m, mods))
    ensures multiset(InsertMod(m, mods)) == multiset{m} + multiset(mods)
    ensures InsertMod(m, mods) != [] && (InsertMod(m, mods)[0] == m || (mods != [] && InsertMod(m, mods)[0] == mods[0]))
  {
    if !(mods == [] || m.offset <= mods[0].offset) {
      InsertSorts(m, mods[1..]);
      var tail := InsertMod(m, mods[1..]);
      assert mods == [mods[0]] + mods[1..];
      SortedCons(mods[0], tail);
    } else if mods != [] {
      SortedCons(m, mods);
    }
  }

  lemma SortedCons(m: CellMod, mods: seq<CellMod>)
    requires SortedByOffset(mods) && (mods != [] ==> m.offset <= mods[0].offset)
    ensures SortedByOffset([m] + mods)
  {
    var s := [m] + mods;
    forall i, j | 0 <= i < j < |s| ensures s[i].offset <= s[j].offset {
      assert s[j] == mods[j - 1];
      assert i > 0 ==> s[i] == mods[i - 1];
      assert mods[0].offset <= mods[j - 1].offset;
    }
  }

  /** SortMods sorts: the result is ordered and has the same entries. */
  lemma {:induction false} SortModsSorts(mods: seq<CellMod>)
    ensures SortedByOffset(SortMods(mods)) && multiset(SortMods(mods)) == multiset(mods)
  {
    if mods != [] {
      SortModsSorts(mods[1..]);
      InsertSorts(mods[0], SortMods(mods[1..]));
      assert mods == [mods[0]] + mods[1..];
    }
  }

  /** The line that moves the pointer by `d`, if any. */
  function MoveBy(d: int): seq<Line> {
    if d > 0 then [Ins(ADD, [Direct(A), Num(d)])]
    else if d < 0 then [Ins(SUB, [Direct(A), Num(-d)])]
    else []
  }

  /** Adds `value` times B to the current cell. The last change may scale B itself. */
  function AddScaled(value: int, last: bool): seq<Line> {
    if value == 1 then [Ins(ADD, [At(A), Direct(B)])]
    else if value == -1 then [Ins(SUB, [At(A), Direct(B)])]
    else if last then [Ins(MUL, [Direct(B), Num(value)]), Ins(ADD, [At(A), Direct(B)])]
    else [Ins(MOV, [Direct(C), Direct(B)]), Ins(MUL, [Direct(C), Num(value)]), Ins(ADD, [At(A), Direct(C)])]
  }

  function MulSteps(mods: seq<CellMod>, cur: int): seq<Line>
    decreases |mods|
  {
    if mods == [] then MoveBy(-cur)
    else MoveBy(mods[0].offset - cur) + AddScaled(mods[0].value, |mods| == 1) + MulSteps(mods[1..], mods[0].offset)
  }

  function MulLines(mods: seq<CellMod>): seq<Line> {
    [Ins(MOV, [Direct(B), At(A)]), CLEAR_LINE] + MulSteps(SortMods(mods), 0)
  }

  lemma Regroup(a: seq<Line>, b: seq<Line>, c: seq<Line>, d: seq<Line>)
    ensures a + (b + c + d) == a + b + c + d
  {
    assert a + (b + c + d) == a + (b + c) + d;
  }

  lemma MulStepsNext(r: seq<Line>, sorted: seq<CellMod>, i: nat, cur: int)
    requires i < |sorted|
    ensures r + MulSteps(sorted[i..], cur)
         == r + MoveBy(sorted[i].offset - cur) + AddScaled(sorted[i].value, i == |sorted| - 1)
              + MulSteps(sorted[i + 1..], sorted[i].offset)
  {
    hide MoveBy, AddScaled;
    assert sorted[i..][1..] == sorted[i + 1..];
    Regroup(r, MoveBy(sorted[i].offset - cur), AddScaled(sorted[i].value, i == |sorted| - 1),
            MulSteps(sorted[i + 1..], sorted[i].offset));
  }

  method EmitMulReplacement(out: seq<Line>, mods: seq<CellMod>) returns (r: seq<Line>)
    ensures r == out + MulLines(mods)
  {
    hide MulSteps, SortMods, MoveBy, AddScaled;
    r := out + [Ins(MOV, [Direct(B), At(A)])];
    r := r + [Ins(MOV, [At(A), Num(0)])];
    var sorted := SortMods(mods);
    var cur := 0;
    var i := 0;
    assert sorted[0..] == sorted;
    Associate(out, [Ins(MOV, [Direct(B), At(A)])], [Ins(MOV, [At(A), Num(0)])]);
    Associate(out, [Ins(MOV, [Direct(B), At(A)]), CLEAR_LINE], MulSteps(sorted, 0));
    while i < |sorted|
      invariant 0 <= i <= |sorted|
      invariant r + MulSteps(sorted[i..], cur) == out + MulLines(mods)
    {
      MulStepsNext(r, sorted, i, cur);
      var m := sorted[i];
      r := r + MoveBy(m.offset - cur);
      r := r + AddScaled(m.value, i == |sorted| - 1);
      cur := m.offset;
      i := i + 1;
    }
    MulStepsEnd(sorted[i..], cur);
    r := r + MoveBy(-cur);
  }

  lemma MulStepsEnd(mods: seq<CellMod>, cur: int)
    requires |mods| == 0
    ensures MulSteps(mods, cur) == MoveBy(-cur)
  {
  }

  // ----- the pass -----

  /** The straight-line code for a loop body, or None when the loop stays. */
  function Replacement(body: seq<Line>): Option<seq<Line>> {
    if body == CLEAR_BODY then Some([CLEAR_LINE])
    else if |body| >= 2 && body[0] == Ins(SUB, [At(A), Num(1)]) then
      match Analyse(body)
      case None => None
      case Some(mods) => Some(MulLines(mods))
    else None
  }

  /** The output of the pass for the lines from `i` on. */
  function Optimise(lines: seq<Line>, i: nat): seq<Line>
    decreases |lines| - i
  {
    if i >= |lines| then []
    else
      match ParseLoop(lines, i)
      case None => [lines[i]] + Optimise(lines, i + 1)
      case Some(loop) =>
        match Replacement(loop.body)
        case None => [lines[i]] + Optimise(lines, i + 1)
        case Some(code) => code + Optimise(lines, loop.closeIdx + 3)
  }

  method ApplyLoopOptimizations(lines: seq<Line>) returns (out: seq<Line>)
    ensures out == Optimise(lines, 0)
  {
    hide Analyse, MulLines, ParseLoop;
    out := [];
    var i := 0;
    while i < |lines|
      invariant 0 <= i
      invariant out + Optimise(lines, i) == Optimise(lines, 0)
      decreases |lines| - i
    {
      ghost var before := out;
      var parsed := TryParseLoop(lines, i);
      if parsed.None? {
        Associate(before, [lines[i]], Optimise(lines, i + 1));
        out := out + [lines[i]];
        i := i + 1;
        continue;
      }
      var loop := parsed.value;
      ParsedEnd(lines, i);
      if |loop.body| == 1 && loop.body[0] == Ins(SUB, [At(A), Num(1)]) {
        assert loop.body == CLEAR_BODY;
        Associate(before, [CLEAR_LINE], Optimise(lines, loop.closeIdx + 3));
        out := out + [CLEAR_LINE];
        i := loop.closeIdx + 3;
        continue;
      }
      if |loop.body| >= 2 && loop.body[0] == Ins(SUB, [At(A), Num(1)]) {
        var mods := TryAnalyzeMultBody(loop.body);
        if mods.Some? {
          Associate(before, MulLines(mods.value), Optimise(lines, loop.closeIdx + 3));
          out := EmitMulReplacement(out, mods.value);
          i := loop.closeIdx + 3;
          continue;
        }
      }
      Associate(before, [lines[i]], Optimise(lines, i + 1));
      out := out + [lines[i]];
      i := i + 1;
    }
  }

  lemma ParsedEnd(lines: seq<Line>, i: nat)
    requires i < |lines| && ParseLoop(lines, i).Some?
    ensures i + 3 <= ParseLoop(lines, i).value.closeIdx < |lines| - 2
  {
  }
}
