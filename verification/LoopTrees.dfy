/** The loop pass on structured code: when a replacement is right, and that the pass as a whole
    then keeps the meaning of the program around it. */
module LoopTrees {
  import opened Bytes
  import opened Asm
  import opened Machine
  import opened CodeTrees
  import opened FoldRuns
  import opened LoopPass
  import opened MultiplyLoops

  predicate AllPlain(lines: seq<Line>) { forall i :: 0 <= i < |lines| ==> Plain(lines[i]) }

  // ----- straight bodies -----

  /** A body that the analysis accepts contains no loop: it runs line by line. */
  lemma {:induction false} TalliedIsStraight(body: Code, t: Tally)
    requires PlainCode(body) && TallyAll(Flatten(body), t).Some?
    ensures AllPlain(Flatten(body))
    ensures forall fuel: nat, s :: EvalCode(fuel, body, s) == Some(ExecAll(Flatten(body), s))
    decreases body
  {
    hide Exec, Plain, TallyLine;
    match body
    case Done =>
    case Then(line, rest) =>
      assert Flatten(body)[1..] == Flatten(rest);
      TalliedIsStraight(rest, TallyLine(t, line));
    case While(id, inner, rest) =>
      LoopIsNotTallied(body, t);
      assert false;
  }

  lemma LoopIsNotTallied(c: Code, t: Tally)
    requires c.While?
    ensures TallyAll(Flatten(c), t).None?
  {
    assert Flatten(c)[0] == Open(c.id)[0];
  }

  // ----- exactly how often a replaced loop runs -----

  /** The net change of the loop's own cell is -1 modulo 256. Every analysed body changes offset 0 by
      exactly -1, so this fails only when other offsets that are multiples of 256 add up to something. */
  predicate CountsDown(body: seq<Line>)
    requires TallyAll(body, Tally([], 0)).Some?
  {
    Weight(Net(body), 0) % 256 == 255
  }

  lemma ScaledKeepsFlags(s: Cpu, mods: seq<CellMod>, times: int)
    ensures Tested(Scaled(Tested(s), mods, times)) == Tested(Scaled(s, mods, times))
  {
  }

  lemma CountdownStep(s: Cpu, body: seq<Line>)
    requires TallyAll(body, Tally([], 0)).Some? && CountsDown(body) && s.cells[s.a] != 0
    ensures Scaled(s, Net(body), 1).cells[s.a] == s.cells[s.a] - 1
  {
    var w := Weight(Net(body), 0);
    var cell: int := s.cells[s.a];
    assert s.a - s.a == 0;
    assert w == 256 * (w / 256) + 255;
    WrapShift(cell - 1, w / 256 + 1);
    assert cell + w == cell - 1 + 256 * (w / 256 + 1);
  }

  /** A clear or multiply loop entered with cell value v runs exactly v rounds and leaves every
      change added v times: with less fuel than v it is still running. */
  lemma {:induction false} LoopRuns(fuel: nat, c: Code, s: Cpu)
    requires c.While? && PlainCode(c) && Replacement(Flatten(c.body)).Some?
    requires TallyAll(Flatten(c.body), Tally([], 0)).Some? && CountsDown(Flatten(c.body))
    ensures var v := s.cells[s.a];
      EvalCode(fuel, c, s)
        == if fuel < v then None
           else EvalCode(fuel - v, c.rest, Tested(Scaled(s, Net(Flatten(c.body)), v)))
    decreases fuel
  {
    hide Flatten, Scaled, Net, CountsDown, Plain, TallyAll, Replacement;
    var body := Flatten(c.body);
    var v: nat := s.cells[s.a];
    if v == 0 {
      ScaledNone(s, Net(body));
    } else if fuel > 0 {
      RunRound(fuel - 1, c, Tested(s));
      var s1 := Scaled(Tested(s), Net(body), 1);
      CountdownStep(Tested(s), body);
      ScaledPointer(Tested(s), Net(body), 1);
      LoopRuns(fuel - 1, c, s1);
      ScaledTwice(Tested(s), Net(body), 1, v - 1);
      ScaledKeepsFlags(s, Net(body), v);
    }
  }

  lemma ScaledPointer(s: Cpu, mods: seq<CellMod>, times: int)
    ensures Scaled(s, mods, times).a == s.a
  {
  }

  lemma RunRound(fuel: nat, c: Code, s: Cpu)
    requires c.While? && PlainCode(c) && Replacement(Flatten(c.body)).Some?
    ensures TallyAll(Flatten(c.body), Tally([], 0)).Some?
    ensures EvalCode(fuel, c.body, s) == Some(Scaled(s, Net(Flatten(c.body)), 1))
  {
    hide Replacement, Flatten, Scaled, Net, TallyAll, ExecAll, Plain;
    ReplacedIsTallied(Flatten(c.body));
    TalliedIsStraight(c.body, Tally([], 0));
    RoundMeans(Flatten(c.body), s);
  }

  /** A loop that ends leaves its own cell at 0. */
  lemma {:induction false} LoopEndsAtZero(fuel: nat, id: nat, body: Code, s: Cpu)
    requires PlainCode(body) && EvalCode(fuel, While(id, body, Done), s).Some?
    ensures var r := EvalCode(fuel, While(id, body, Done), s).value; r.cells[r.a] == 0
    decreases fuel
  {
    if !Tested(s).zero {
      LoopEndsAtZero(fuel - 1, id, body, EvalCode(fuel - 1, body, Tested(s)).value);
    }
  }

  /** From `s`, the loop ends and shows what `code` shows. */
  ghost predicate LoopAgrees(id: nat, body: Code, code: seq<Line>, s: Cpu)
    requires PlainCode(body) && AllPlain(code)
  {
    exists fuel: nat ::
      && EvalCode(fuel, While(id, body, Done), s).Some?
      && Core(EvalCode(fuel, While(id, body, Done), s).value) == Core(ExecAll(code, s))
  }

  /** Exactly when the replacement of a loop is right: it agrees with the loop in every state if and
      only if the body's net change of the loop cell is -1 modulo 256. */
  lemma {:induction false} ReplacementExact(id: nat, body: Code)
    requires PlainCode(body) && Replacement(Flatten(body)).Some?
    ensures TallyAll(Flatten(body), Tally([], 0)).Some? && AllPlain(Replacement(Flatten(body)).value)
    ensures CountsDown(Flatten(body)) <==>
      forall s :: LoopAgrees(id, body, Replacement(Flatten(body)).value, s)
  {
    hide Plain, Replacement, Flatten, Scaled, Net, TallyAll;
    var code := Replacement(Flatten(body)).value;
    var loop := While(id, body, Done);
    var one := Cpu(seq(256, i => if i == 1 then 1 else 0), 1, 0, 0, 0, false, false, [], []);
    ReplacementMeans(Flatten(body), one);
    if CountsDown(Flatten(body)) {
      forall s ensures LoopAgrees(id, body, code, s) {
        var v: nat := s.cells[s.a];
        LoopRuns(v, loop, s);
        ReplacementMeans(Flatten(body), s);
        assert EvalCode(v, loop, s).Some?;
      }
    } else if LoopAgrees(id, body, code, one) {
      var fuel: nat :| EvalCode(fuel, loop, one).Some?
        && Core(EvalCode(fuel, loop, one).value) == Core(ExecAll(code, one));
      LoopEndsAtZero(fuel, id, body, one);
      LoopCellAfter(one, Net(Flatten(body)));
      ScaledPointer(one, Net(Flatten(body)), 1);
      assert false;
    } else {
      assert !LoopAgrees(id, body, code, one);
    }
  }

  lemma LoopCellAfter(s: Cpu, mods: seq<CellMod>)
    requires s.cells[s.a] == 1 && Weight(mods, 0) % 256 != 255
    ensures Scaled(s, mods, 1).cells[s.a] != 0
  {
    assert s.a - s.a == 0;
  }

  /** Where it fails: the folded body of a loop that counts its cell down, and then goes 256 cells to the
      right, which is the same cell, to count up, and back. */
  const FAR_BODY: Code :=
    Then(Ins(SUB, [At(A), Num(1)]), Then(Ins(ADD, [Direct(A), Num(1)]), Then(Ins(ADD, [Direct(A), Num(255)]),
    Then(Ins(ADD, [At(A), Num(1)]), Then(Ins(SUB, [Direct(A), Num(256)]), Done)))))

  lemma TallyCons(line: Line, rest: seq<Line>, t: Tally)
    requires Moves(line) || Changes(line)
    ensures TallyAll([line] + rest, t) == TallyAll(rest, TallyLine(t, line))
  {
    assert ([line] + rest)[1..] == rest;
  }

  /** The lines of that body. */
  function FarLines(): seq<Line> {
    [Ins(SUB, [At(A), Num(1)])] + ([Ins(ADD, [Direct(A), Num(1)])] + ([Ins(ADD, [Direct(A), Num(255)])] +
    ([Ins(ADD, [At(A), Num(1)])] + ([Ins(SUB, [Direct(A), Num(256)])] + []))))
  }

  lemma FarBodyLines()
    ensures PlainCode(FAR_BODY) && Flatten(FAR_BODY) == FarLines()
    ensures FarLines() != CLEAR_BODY && |FarLines()| == 5 && FarLines()[0] == Ins(SUB, [At(A), Num(1)])
  {
  }

  lemma {:induction false} FarBodyTally()
    ensures TallyAll(FarLines(), Tally([], 0)) == Some(Tally([CellMod(0, -1), CellMod(256, 1)], 0))
  {
    var (a, b, c) := (Ins(SUB, [At(A), Num(1)]), Ins(ADD, [Direct(A), Num(1)]), Ins(ADD, [Direct(A), Num(255)]));
    var (d, e) := (Ins(ADD, [At(A), Num(1)]), Ins(SUB, [Direct(A), Num(256)]));
    var (one, two) := ([CellMod(0, -1)], [CellMod(0, -1), CellMod(256, 1)]);
    assert Bump([], 0, -1) == one && Bump(one, 256, 1) == two;
    hide TallyAll, Bump;
    TallyCons(a, [b] + ([c] + ([d] + ([e] + []))), Tally([], 0));
    TallyCons(b, [c] + ([d] + ([e] + [])), Tally(one, 0));
    TallyCons(c, [d] + ([e] + []), Tally(one, 1));
    TallyCons(d, [e] + [], Tally(one, 256));
    TallyCons(e, [], Tally(two, 256));
    TallyNothing(Tally(two, 0));
  }

  lemma TallyNothing(t: Tally)
    ensures TallyAll([], t) == Some(t)
  {
  }

  /** The pass replaces it, and in some state the replacement disagrees with the loop. */
  lemma {:induction false} FarBodyFails(id: nat)
    ensures PlainCode(FAR_BODY) && Replacement(Flatten(FAR_BODY)).Some? && AllPlain(Replacement(Flatten(FAR_BODY)).value)
    ensures exists s :: !LoopAgrees(id, FAR_BODY, Replacement(Flatten(FAR_BODY)).value, s)
  {
    hide FAR_BODY, Flatten, TallyAll, FarLines;
    FarBodyLines();
    FarBodyTally();
    var mods := [CellMod(0, -1), CellMod(256, 1)];
    assert mods[..0] + mods[0 + 1..] == [CellMod(256, 1)];
    assert IndexOf(mods, 0) == 0;
    assert Analyse(Flatten(FAR_BODY)) == Some([CellMod(256, 1)]);
    WeightOne(CellMod(256, 1), 0);
    assert mods[1..] == [CellMod(256, 1)] && Weight(mods, 0) == 0;
    hide Weight, LoopAgrees, AllPlain;
    ReplacementExact(id, FAR_BODY);
  }

  // ----- the pass on trees -----

  function OptTree(c: Code): Code {
    match c
    case Done => Done
    case Then(line, rest) => Then(line, OptTree(rest))
    case While(id, body, rest) =>
      match Replacement(Flatten(body))
      case Some(code) => Prepend(code, OptTree(rest))
      case None => While(id, OptTree(body), OptTree(rest))
  }

  /** Every loop that the pass replaces counts down. */
  predicate Countdowns(c: Code) {
    match c
    case Done => true
    case Then(_, rest) => Countdowns(rest)
    case While(_, body, rest) =>
      ReplacementTallied(body);
      && (Replacement(Flatten(body)).Some? ==> CountsDown(Flatten(body)))
      && Countdowns(body) && Countdowns(rest)
  }

  lemma ReplacementTallied(body: Code)
    ensures Replacement(Flatten(body)).Some? ==> TallyAll(Flatten(body), Tally([], 0)).Some?
  {
    hide Replacement;
    if Replacement(Flatten(body)).Some? { ReplacedIsTallied(Flatten(body)); }
  }

  /** The lines before this pass: they touch only A, the current cell and the streams. */
  predicate CoreLine(line: Line) {
    line.Ins? &&
    match line.m
    case ADD | SUB => |line.args| == 2 && IsTarget(line.args[0]) && line.args[1].Num?
    case PRINT | INPUT => line.args == [At(A)]
    case _ => false
  }

  predicate CoreCode(c: Code) {
    match c
    case Done => true
    case Then(line, rest) => CoreLine(line) && CoreCode(rest)
    case While(_, body, rest) => CoreCode(body) && CoreCode(rest)
  }

  lemma {:induction false} CoreCodeIsPlain(c: Code)
    requires CoreCode(c)
    ensures PlainCode(c)
  {
    match c
    case Done =>
    case Then(line, rest) => CoreCodeIsPlain(rest);
    case While(_, body, rest) => CoreCodeIsPlain(body); CoreCodeIsPlain(rest);
  }

  lemma {:induction false} OptTreeIsPlain(c: Code)
    requires PlainCode(c)
    ensures PlainCode(OptTree(c))
  {
    hide Plain, Replacement, Flatten;
    var s := Cpu(seq(256, i => 0), 0, 0, 0, 0, false, false, [], []);
    match c
    case Done =>
    case Then(line, rest) => OptTreeIsPlain(rest);
    case While(id, body, rest) =>
      OptTreeIsPlain(body);
      OptTreeIsPlain(rest);
      if Replacement(Flatten(body)).Some? {
        ReplacementMeans(Flatten(body), s);
        EvalPrepend(0, Replacement(Flatten(body)).value, OptTree(rest), s);
      }
  }

  /** B, C and the flags are dead: lines before the pass do the same whatever they hold. */
  lemma {:induction false} CoreLineAgrees(line: Line, s: Cpu, t: Cpu)
    requires CoreLine(line) && Core(s) == Core(t)
    ensures Plain(line) && Core(Exec(line, s)) == Core(Exec(line, t))
  {
  }

  lemma TestedAgrees(s: Cpu, t: Cpu)
    requires Core(s) == Core(t)
    ensures Tested(s).zero == Tested(t).zero
    ensures Core(Tested(s)) == Core(Tested(t)) == Core(s)
  {
  }

  ghost predicate SameCore(r: Option<Cpu>, q: Option<Cpu>) {
    r.Some? && q.Some? && Core(r.value) == Core(q.value)
  }

  /** The pass as a whole, forwards: where the original code ends, the optimised code ends with the
      same observable state, from any B, C and flags. */
  lemma {:induction false} OptFollows(fuel: nat, c: Code, s: Cpu, t: Cpu)
    requires CoreCode(c) && PlainCode(c) && PlainCode(OptTree(c)) && Countdowns(c) && Core(s) == Core(t)
    requires EvalCode(fuel, c, s).Some?
    ensures SameCore(EvalCode(fuel, c, s), EvalCode(fuel, OptTree(c), t))
    decreases fuel, c
  {
    hide Exec, Plain, Replacement, Flatten, CountsDown, Tested, CoreLine, Scaled, Net, ExecAll, TallyAll;
    match c
    case Done =>
    case Then(line, rest) =>
      CoreLineAgrees(line, s, t);
      OptFollows(fuel, rest, Exec(line, s), Exec(line, t));
    case While(id, body, rest) =>
      TestedAgrees(s, t);
      OptTreeIsPlain(rest);
      if Replacement(Flatten(body)).Some? {
        var t1 := ReplacedAgrees(fuel, c, s, t);
        OptFollows(fuel - s.cells[s.a], rest, LoopExit(c, s), t1);
        EvalCodeMonotone(fuel - s.cells[s.a], fuel, OptTree(rest), t1);
      } else if Tested(s).zero {
        OptFollows(fuel, rest, Tested(s), Tested(t));
      } else {
        OptFollows(fuel - 1, body, Tested(s), Tested(t));
        OptFollows(fuel - 1, c, EvalCode(fuel - 1, body, Tested(s)).value,
                   EvalCode(fuel - 1, OptTree(body), Tested(t)).value);
      }
  }

  /** The state in which a replaced loop leaves. */
  function LoopExit(c: Code, s: Cpu): Cpu
    requires c.While? && Replacement(Flatten(c.body)).Some?
  {
    ReplacedIsTallied(Flatten(c.body));
    Tested(Scaled(s, Net(Flatten(c.body)), s.cells[s.a]))
  }

  /** Both sides of a replaced loop, up to the code that follows it. */
  lemma ReplacedAgrees(fuel: nat, c: Code, s: Cpu, t: Cpu) returns (t1: Cpu)
    requires c.While? && PlainCode(c) && PlainCode(OptTree(c)) && PlainCode(OptTree(c.rest)) && Countdowns(c)
    requires Core(s) == Core(t) && Replacement(Flatten(c.body)).Some?
    ensures Core(LoopExit(c, s)) == Core(t1)
    ensures EvalCode(fuel, OptTree(c), t) == EvalCode(fuel, OptTree(c.rest), t1)
    ensures EvalCode(fuel, c, s)
         == if fuel < s.cells[s.a] then None else EvalCode(fuel - s.cells[s.a], c.rest, LoopExit(c, s))
  {
    hide Plain, Replacement, Flatten, CountsDown, Net, ExecAll, TallyAll, ScaledCells;
    var code := Replacement(Flatten(c.body)).value;
    ReplacementMeans(Flatten(c.body), t);
    t1 := ExecAll(code, t);
    EvalPrepend(fuel, code, OptTree(c.rest), t);
    LoopRuns(fuel, c, s);
  }

  /** The pass as a whole, backwards: where the optimised code ends, the original code ends. */
  lemma {:induction false} OptHalts(fuel: nat, c: Code, s: Cpu, t: Cpu) returns (more: nat)
    requires CoreCode(c) && PlainCode(c) && PlainCode(OptTree(c)) && Countdowns(c) && Core(s) == Core(t)
    requires EvalCode(fuel, OptTree(c), t).Some?
    ensures SameCore(EvalCode(more, c, s), EvalCode(fuel, OptTree(c), t))
    decreases fuel, c
  {
    hide Exec, Plain, Replacement, Flatten, CountsDown, Tested, CoreLine, Scaled, Net, ExecAll, TallyAll;
    match c
    case Done => more := 0;
    case Then(line, rest) =>
      CoreLineAgrees(line, s, t);
      more := OptHalts(fuel, rest, Exec(line, s), Exec(line, t));
    case While(id, body, rest) =>
      TestedAgrees(s, t);
      OptTreeIsPlain(rest);
      if Replacement(Flatten(body)).Some? {
        var t1 := ReplacedAgrees(fuel, c, s, t);
        more := OptHalts(fuel, rest, LoopExit(c, s), t1);
        more := more + s.cells[s.a];
        t1 := ReplacedAgrees(more, c, s, t);
      } else if Tested(s).zero {
        more := OptHalts(fuel, rest, Tested(s), Tested(t));
      } else {
        var inner := OptHalts(fuel - 1, body, Tested(s), Tested(t));
        var s1 := EvalCode(inner, body, Tested(s)).value;
        var outer := OptHalts(fuel - 1, c, s1, EvalCode(fuel - 1, OptTree(body), Tested(t)).value);
        EvalCodeMonotone(inner, inner + outer, body, Tested(s));
        EvalCodeMonotone(outer, inner + outer, c, s1);
        more := inner + outer + 1;
      }
  }

  // ----- the pass on text is the pass on trees -----

  lemma {:induction false} PlacedLiesThere(lines: seq<Line>, at: nat, c: Code)
    requires Placed(lines, at, c)
    ensures Lies(lines, at, Flatten(c))
    decreases c
  {
    hide *;
    match c
    case Done => NothingLies(lines, at, c);
    case Then(line, rest) =>
      PlacedThen(lines, at, c);
      PlacedLiesThere(lines, at + 1, rest);
      LineLies(lines, at, line);
      LiesJoin(lines, at, [line], Flatten(rest));
      FlattenStep(line, rest, []);
      Tidy(Flatten(c), []);
      Tidy(Flatten(rest), []);
    case While(id, body, rest) =>
      PlacedWhile(lines, at, c);
      PlacedLiesThere(lines, at + 3, body);
      PlacedLiesThere(lines, at + 6 + Width(body), rest);
      PlacedLies(lines, at, id, body, rest);
      LoopLiesThere(lines, at, c);
  }

  lemma NothingLies(lines: seq<Line>, at: nat, c: Code)
    requires c.Done? && Placed(lines, at, c)
    ensures Lies(lines, at, Flatten(c))
  {
  }

  lemma LineLies(lines: seq<Line>, at: nat, line: Line)
    requires at < |lines| && lines[at] == line
    ensures Lies(lines, at, [line])
  {
  }

  lemma LoopLiesThere(lines: seq<Line>, at: nat, c: Code)
    requires c.While? && Lies(lines, at, Open(c.id)) && Lies(lines, at + 3, Flatten(c.body))
    requires Lies(lines, at + 3 + Width(c.body), Close(c.id)) && Lies(lines, at + 6 + Width(c.body), Flatten(c.rest))
    ensures Lies(lines, at, Flatten(c))
  {
    hide Lies, Open, Close, Flatten;
    FlattenWhile(c);
    LiesJoin(lines, at, Open(c.id), Flatten(c.body));
    LiesJoin(lines, at, Open(c.id) + Flatten(c.body), Close(c.id));
    LiesJoin(lines, at, Open(c.id) + Flatten(c.body) + Close(c.id), Flatten(c.rest));
  }

  lemma LiesJoin(lines: seq<Line>, at: nat, a: seq<Line>, b: seq<Line>)
    requires Lies(lines, at, a) && Lies(lines, at + |a|, b)
    ensures Lies(lines, at, a + b)
  {
    assert lines[at..at + |a + b|] == lines[at..at + |a|] + lines[at + |a|..at + |a| + |b|];
  }

  /** At the start label of a placed loop, the parser finds exactly that loop. */
  lemma {:induction false} ParsesPlaced(lines: seq<Line>, at: nat, c: Code)
    requires c.While? && Placed(lines, at, c) && at + Width(c) < |lines|
    ensures ParseLoop(lines, at) == Some(ParsedLoop(c.id, at + 3 + Width(c.body), Flatten(c.body)))
  {
    hide Plain, Flatten, Lies;
    var z := at + 3 + Width(c.body);
    PlacedLoop(lines, at, c.id, c.body, c.rest);
    PlacedLiesThere(lines, at + 3, c.body);
    LiesSlice(lines, at + 3, Flatten(c.body));
    assert FirstMark(lines, ClosePar(c.id), at + 3) == z;
  }

  lemma LiesSlice(lines: seq<Line>, at: nat, part: seq<Line>)
    requires Lies(lines, at, part)
    ensures at + |part| <= |lines| && lines[at..at + |part|] == part
  {
  }

  lemma OptimiseCopies(lines: seq<Line>, at: nat)
    requires at < |lines| && (ParseLoop(lines, at).None? || Replacement(ParseLoop(lines, at).value.body).None?)
    ensures Optimise(lines, at) == [lines[at]] + Optimise(lines, at + 1)
  {
  }

  lemma OptimiseReplaces(lines: seq<Line>, at: nat)
    requires at < |lines| && ParseLoop(lines, at).Some? && Replacement(ParseLoop(lines, at).value.body).Some?
    ensures Optimise(lines, at)
         == Replacement(ParseLoop(lines, at).value.body).value + Optimise(lines, ParseLoop(lines, at).value.closeIdx + 3)
  {
  }

  lemma CopiesThree(lines: seq<Line>, at: nat)
    requires at + 3 <= |lines|
    requires ParseLoop(lines, at).None? || Replacement(ParseLoop(lines, at).value.body).None?
    requires !lines[at + 1].Mark? && !lines[at + 2].Mark?
    ensures Optimise(lines, at) == [lines[at], lines[at + 1], lines[at + 2]] + Optimise(lines, at + 3)
  {
    hide Optimise, Replacement;
    OptimiseCopies(lines, at);
    OptimiseCopies(lines, at + 1);
    OptimiseCopies(lines, at + 2);
  }

  /** In a program with a line after it, a placed tree is rewritten as a tree; the scan then goes on
      right behind it. */
  lemma {:induction false} OptimiseFlattens(lines: seq<Line>, at: nat, c: Code)
    requires Placed(lines, at, c) && at + Width(c) < |lines|
    ensures Optimise(lines, at) == Flatten(OptTree(c)) + Optimise(lines, at + Width(c))
    decreases c
  {
    hide Plain, Optimise, ParseLoop, Replacement, Flatten, Open, Close, Only, Lies;
    match c
    case Done => assert Flatten(Done) == [] by { FlattenDone(); }
    case Then(line, rest) =>
      PlainIsNoMark(lines, at);
      OptimiseCopies(lines, at);
      OptimiseFlattens(lines, at + 1, rest);
      FlattenPrepend([], OptTree(rest));
      FlattenStep(line, OptTree(rest), Optimise(lines, at + Width(c)));
    case While(id, body, rest) =>
      OptimiseFlattens(lines, at + 6 + Width(body), rest);
      if Replacement(Flatten(body)).Some? {
        LoopReplaced(lines, at, c);
      } else {
        OptimiseFlattens(lines, at + 3, body);
        LoopKept(lines, at, c);
      }
  }

  lemma LoopReplaced(lines: seq<Line>, at: nat, c: Code)
    requires c.While? && Placed(lines, at, c) && at + Width(c) < |lines| && Replacement(Flatten(c.body)).Some?
    requires Optimise(lines, at + 6 + Width(c.body)) == Flatten(OptTree(c.rest)) + Optimise(lines, at + Width(c))
    ensures Optimise(lines, at) == Flatten(OptTree(c)) + Optimise(lines, at + Width(c))
  {
    hide Placed, Optimise, ParseLoop, Replacement, Flatten;
    var code := Replacement(Flatten(c.body)).value;
    ParsesPlaced(lines, at, c);
    OptimiseReplaces(lines, at);
    FlattenPrepend(code, OptTree(c.rest));
    Associate(code, Flatten(OptTree(c.rest)), Optimise(lines, at + Width(c)));
  }

  lemma LoopKept(lines: seq<Line>, at: nat, c: Code)
    requires c.While? && Placed(lines, at, c) && at + Width(c) < |lines| && Replacement(Flatten(c.body)).None?
    requires Optimise(lines, at + 3) == Flatten(OptTree(c.body)) + Optimise(lines, at + 3 + Width(c.body))
    requires Optimise(lines, at + 6 + Width(c.body)) == Flatten(OptTree(c.rest)) + Optimise(lines, at + Width(c))
    ensures Optimise(lines, at) == Flatten(OptTree(c)) + Optimise(lines, at + Width(c))
  {
    hide Placed, Optimise, ParseLoop, Replacement, Flatten, Open, Close;
    ParsesPlaced(lines, at, c);
    LoopLines(lines, at, c);
    CopiesThree(lines, at);
    CopiesThree(lines, at + 3 + Width(c.body));
    FlattenWhile(OptTree(c));
    GroupLoop(Open(c.id), Flatten(OptTree(c.body)), Close(c.id), Flatten(OptTree(c.rest)), Optimise(lines, at + Width(c)));
  }

  lemma PlainIsNoMark(lines: seq<Line>, at: nat)
    requires at < |lines| && Plain(lines[at])
    ensures ParseLoop(lines, at).None?
  {
  }

  lemma LoopLines(lines: seq<Line>, at: nat, c: Code)
    requires c.While? && Placed(lines, at, c)
    ensures var z := at + 3 + Width(c.body);
      && z + 3 <= |lines|
      && [lines[at], lines[at + 1], lines[at + 2]] == Open(c.id)
      && [lines[z], lines[z + 1], lines[z + 2]] == Close(c.id)
      && !lines[at + 1].Mark? && !lines[at + 2].Mark? && !lines[z + 1].Mark? && !lines[z + 2].Mark?
      && ParseLoop(lines, z).None?
  {
    hide Plain, Flatten, Lies, Only;
    PlacedLoop(lines, at, c.id, c.body, c.rest);
  }

  /** The pass removes loops together with their labels and keeps the others, so that no surviving
      jump loses its label and labels stay unique. */
  lemma {:induction false} OptKeepsLoops(c: Code)
    requires Distinct(c)
    ensures Ids(OptTree(c)) <= Ids(c) && Distinct(OptTree(c))
  {
    hide Replacement, Flatten;
    match c
    case Done =>
    case Then(line, rest) => OptKeepsLoops(rest);
    case While(id, body, rest) =>
      OptKeepsLoops(body);
      OptKeepsLoops(rest);
      if Replacement(Flatten(body)).Some? {
        PrependKeepsLoops(Replacement(Flatten(body)).value, OptTree(rest));
      }
  }
}
