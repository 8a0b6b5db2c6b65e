/** Loop-structured code and the flat, labelled form in which the compiler writes it. The main
    results say that the flat form runs exactly like nested while-loops, in both directions. */
module CodeTrees {
  import opened Bytes
  import opened Asm
  import opened Machine

  datatype Code = Done | Then(line: Line, rest: Code) | While(id: nat, body: Code, rest: Code)

  const TEST_ZERO := Ins(CMP, [At(A), Num(0)])

  function Open(id: nat): (lines: seq<Line>)
    ensures |lines| == 3
  {
    [Mark(StartPar(id)), TEST_ZERO, Ins(JE, [Ref(ClosePar(id))])]
  }

  function Close(id: nat): (lines: seq<Line>)
    ensures |lines| == 3
  {
    [Mark(ClosePar(id)), TEST_ZERO, Ins(JNE, [Ref(StartPar(id))])]
  }

  /** The number of lines of `Flatten(c)`. */
  function Width(c: Code): nat {
    match c
    case Done => 0
    case Then(_, rest) => 1 + Width(rest)
    case While(_, body, rest) => 6 + Width(body) + Width(rest)
  }

  function Flatten(c: Code): (lines: seq<Line>)
    ensures |lines| == Width(c)
  {
    match c
    case Done => []
    case Then(line, rest) => [line] + Flatten(rest)
    case While(id, body, rest) => Open(id) + Flatten(body) + Close(id) + Flatten(rest)
  }

  /** The definition of Flatten at a loop. */
  lemma FlattenWhile(c: Code)
    requires c.While?
    ensures Flatten(c) == Open(c.id) + Flatten(c.body) + Close(c.id) + Flatten(c.rest)
  {
  }

  /** All straight-line code only computes. */
  predicate PlainCode(c: Code) {
    match c
    case Done => true
    case Then(line, rest) => Plain(line) && PlainCode(rest)
    case While(_, body, rest) => PlainCode(body) && PlainCode(rest)
  }

  function Tested(s: Cpu): Cpu { Compare(s, s.cells[s.a], 0) }

  /** Structured semantics: a loop tests `[A]` before every round. `fuel` bounds loop entries. */
  function EvalCode(fuel: nat, c: Code, s: Cpu): Option<Cpu>
    requires PlainCode(c)
    decreases fuel, c
  {
    match c
    case Done => Some(s)
    case Then(line, rest) => EvalCode(fuel, rest, Exec(line, s))
    case While(_, body, rest) =>
      if Tested(s).zero then EvalCode(fuel, rest, Tested(s))
      else if fuel == 0 then None
      else
        match EvalCode(fuel - 1, body, Tested(s))
        case None => None
        case Some(s1) => EvalCode(fuel - 1, c, s1)
  }

  lemma {:induction false} EvalCodeMonotone(fuel: nat, more: nat, c: Code, s: Cpu)
    requires fuel <= more && PlainCode(c)
    requires EvalCode(fuel, c, s).Some?
    ensures EvalCode(more, c, s) == EvalCode(fuel, c, s)
    decreases fuel, c
  {
    match c
    case Done =>
    case Then(line, rest) => EvalCodeMonotone(fuel, more, rest, Exec(line, s));
    case While(_, body, rest) =>
      if Tested(s).zero {
        EvalCodeMonotone(fuel, more, rest, Tested(s));
      } else {
        EvalCodeMonotone(fuel - 1, more - 1, body, Tested(s));
        EvalCodeMonotone(fuel - 1, more - 1, c, EvalCode(fuel - 1, body, Tested(s)).value);
      }
  }

  // ----- where a tree lies in a flat program -----

  predicate Lies(lines: seq<Line>, at: nat, part: seq<Line>) {
    at + |part| <= |lines| && lines[at..at + |part|] == part
  }

  /** `l` is defined at `at` and nowhere else. */
  predicate Only(lines: seq<Line>, l: Label, at: nat) {
    at < |lines| && forall j :: 0 <= j < |lines| ==> (lines[j] == Mark(l) <==> j == at)
  }

  lemma OnlyThere(lines: seq<Line>, l: Label, at: nat)
    requires Only(lines, l, at)
    ensures LabelAt(lines, l) == at
  {
    assert lines[at] == Mark(l);
  }

  /** `c` lies at index `at`, and every loop label resolves to this occurrence of it. */
  predicate Placed(lines: seq<Line>, at: nat, c: Code)
    decreases c
  {
    at <= |lines| &&
    match c
    case Done => true
    case Then(line, rest) => at < |lines| && lines[at] == line && Plain(line) && Placed(lines, at + 1, rest)
    case While(id, body, rest) =>
      var close := at + 3 + Width(body);
      && Lies(lines, at, Open(id)) && Lies(lines, close, Close(id))
      && Only(lines, StartPar(id), at) && Only(lines, ClosePar(id), close)
      && Placed(lines, at + 3, body) && Placed(lines, close + 3, rest)
  }

  lemma {:induction false} PlacedIsPlain(lines: seq<Line>, at: nat, c: Code)
    requires Placed(lines, at, c)
    ensures PlainCode(c)
    decreases c
  {
    match c
    case Done =>
    case Then(line, rest) => PlacedIsPlain(lines, at + 1, rest);
    case While(id, body, rest) =>
      PlacedIsPlain(lines, at + 3, body);
      PlacedIsPlain(lines, at + 6 + Width(body), rest);
  }

  /** The identifiers of the loops in `c`. */
  function Ids(c: Code): set<nat> {
    match c
    case Done => {}
    case Then(_, rest) => Ids(rest)
    case While(id, body, rest) => {id} + Ids(body) + Ids(rest)
  }

  /** No two loops share an identifier. */
  predicate Distinct(c: Code) {
    match c
    case Done => true
    case Then(_, rest) => Distinct(rest)
    case While(id, body, rest) =>
      && id !in Ids(body) && id !in Ids(rest) && Ids(body) !! Ids(rest)
      && Distinct(body) && Distinct(rest)
  }

  /** `line` defines the start or close label of one of the loops `ids`. */
  predicate Marks(line: Line, ids: set<nat>) {
    line.Mark? && (line.l.StartPar? || line.l.ClosePar?) && line.l.id in ids
  }

  predicate MarkedOnlyWithin(lines: seq<Line>, at: nat, width: nat, ids: set<nat>) {
    forall j :: 0 <= j < |lines| && Marks(lines[j], ids) ==> at <= j < at + width
  }

  lemma {:induction false} FlattenMarks(c: Code, j: nat)
    requires PlainCode(c) && j < Width(c) && Flatten(c)[j].Mark?
    ensures Marks(Flatten(c)[j], Ids(c))
  {
    hide Open, Close;
    match c
    case Then(line, rest) => FlattenMarks(rest, j - 1);
    case While(id, body, rest) =>
      var w := Width(body);
      OpenClose(id);
      FlattenAt(c, j);
      if 3 <= j < 3 + w {
        FlattenMarks(body, j - 3);
      } else if j >= 6 + w {
        FlattenMarks(rest, j - 6 - w);
      }
  }

  lemma FlattenAt(c: Code, j: nat)
    requires c.While? && j < Width(c)
    ensures var w := Width(c.body);
      Flatten(c)[j]
        == if j < 3 then Open(c.id)[j]
           else if j < 3 + w then Flatten(c.body)[j - 3]
           else if j < 6 + w then Close(c.id)[j - 3 - w]
           else Flatten(c.rest)[j - 6 - w]
  {
    FlattenWhile(c);
    hide Open, Close, Flatten;
  }

  /** Code whose loop identifiers are distinct, laid out in a program that defines their labels
      nowhere else, is placed: every jump reaches the loop it was written for. */
  lemma {:induction false} FlattenPlaces(lines: seq<Line>, at: nat, c: Code)
    requires PlainCode(c) && Distinct(c)
    requires Lies(lines, at, Flatten(c)) && MarkedOnlyWithin(lines, at, Width(c), Ids(c))
    ensures Placed(lines, at, c)
    decreases c
  {
    hide Plain, Marks, MarkedOnlyWithin, Only, Open, Close, Lies, Flatten;
    match c
    case Done => LiesHere(lines, at, c);
    case Then(line, rest) =>
      LiesThen(lines, at, c);
      MarksAfter(lines, at, c);
      FlattenPlaces(lines, at + 1, rest);
    case While(id, body, rest) =>
      var z := at + 3 + Width(body);
      LoopLies(lines, at, c);
      LoopMarks(lines, at, c);
      FlattenPlaces(lines, at + 3, body);
      FlattenPlaces(lines, z + 3, rest);
  }

  lemma LiesParts(lines: seq<Line>, at: nat, a: seq<Line>, b: seq<Line>)
    requires Lies(lines, at, a + b)
    ensures Lies(lines, at, a) && Lies(lines, at + |a|, b)
  {
    assert a == (a + b)[..|a|] == lines[at..at + |a|];
    assert b == (a + b)[|a|..] == lines[at + |a|..at + |a| + |b|];
  }

  lemma LiesHere(lines: seq<Line>, at: nat, c: Code)
    requires Lies(lines, at, Flatten(c))
    ensures at + Width(c) <= |lines|
  {
  }

  lemma LiesThen(lines: seq<Line>, at: nat, c: Code)
    requires c.Then? && Lies(lines, at, Flatten(c))
    ensures at < |lines| && lines[at] == c.line && Lies(lines, at + 1, Flatten(c.rest))
  {
    LiesParts(lines, at, [c.line], Flatten(c.rest));
    assert lines[at] == lines[at..at + 1][0];
  }

  lemma MarksAfter(lines: seq<Line>, at: nat, c: Code)
    requires c.Then? && at < |lines| && lines[at] == c.line && Plain(c.line)
    requires MarkedOnlyWithin(lines, at, Width(c), Ids(c))
    ensures MarkedOnlyWithin(lines, at + 1, Width(c.rest), Ids(c.rest))
  {
  }

  lemma LoopLies(lines: seq<Line>, at: nat, c: Code)
    requires c.While? && Lies(lines, at, Flatten(c))
    ensures Lies(lines, at, Open(c.id)) && Lies(lines, at + 3, Flatten(c.body))
    ensures Lies(lines, at + 3 + Width(c.body), Close(c.id)) && Lies(lines, at + 6 + Width(c.body), Flatten(c.rest))
  {
    hide *;
    FlattenWhile(c);
    LiesInFour(lines, at, Open(c.id), Flatten(c.body), Close(c.id), Flatten(c.rest));
  }

  lemma LiesInFour(lines: seq<Line>, at: nat, a: seq<Line>, b: seq<Line>, c: seq<Line>, d: seq<Line>)
    requires Lies(lines, at, a + b + c + d)
    ensures Lies(lines, at, a) && Lies(lines, at + |a|, b)
    ensures Lies(lines, at + |a| + |b|, c) && Lies(lines, at + |a| + |b| + |c|, d)
  {
    LiesParts(lines, at, a + b + c, d);
    LiesParts(lines, at, a + b, c);
    LiesParts(lines, at, a, b);
  }

  /** Where the labels of a loop and of its parts can be. */
  lemma {:induction false} LoopMarks(lines: seq<Line>, at: nat, c: Code)
    requires c.While? && PlainCode(c) && Distinct(c)
    requires MarkedOnlyWithin(lines, at, Width(c), Ids(c))
    requires Lies(lines, at, Open(c.id)) && Lies(lines, at + 3, Flatten(c.body))
    requires Lies(lines, at + 3 + Width(c.body), Close(c.id)) && Lies(lines, at + 6 + Width(c.body), Flatten(c.rest))
    ensures Only(lines, StartPar(c.id), at) && Only(lines, ClosePar(c.id), at + 3 + Width(c.body))
    ensures MarkedOnlyWithin(lines, at + 3, Width(c.body), Ids(c.body))
    ensures MarkedOnlyWithin(lines, at + 6 + Width(c.body), Width(c.rest), Ids(c.rest))
  {
    hide Lies, Flatten, PlainCode, Ids, Distinct;
    var z := at + 3 + Width(c.body);
    LiesAt(lines, at, Open(c.id), 0);
    LiesAt(lines, z, Close(c.id), 0);
    forall j | 0 <= j < |lines| && lines[j].Mark?
      ensures Marks(lines[j], {c.id}) ==> lines[j] == (if j == at then Open(c.id) else Close(c.id))[0] && (j == at || j == z)
      ensures Marks(lines[j], Ids(c.body)) ==> at + 3 <= j < z
      ensures Marks(lines[j], Ids(c.rest)) ==> z + 3 <= j < at + Width(c)
    {
      MarkOwner(lines, at, c, j);
    }
    assert Marks(Mark(StartPar(c.id)), {c.id}) && Marks(Mark(ClosePar(c.id)), {c.id});
  }

  /** Which part of a loop a label in it belongs to. */
  lemma {:induction false} MarkOwner(lines: seq<Line>, at: nat, c: Code, j: nat)
    requires c.While? && PlainCode(c) && Distinct(c)
    requires MarkedOnlyWithin(lines, at, Width(c), Ids(c))
    requires Lies(lines, at, Open(c.id)) && Lies(lines, at + 3, Flatten(c.body))
    requires Lies(lines, at + 3 + Width(c.body), Close(c.id)) && Lies(lines, at + 6 + Width(c.body), Flatten(c.rest))
    requires j < |lines| && lines[j].Mark?
    ensures Marks(lines[j], {c.id}) ==>
      (j == at && lines[j] == Open(c.id)[0]) || (j == at + 3 + Width(c.body) && lines[j] == Close(c.id)[0])
    ensures Marks(lines[j], Ids(c.body)) ==> at + 3 <= j < at + 3 + Width(c.body)
    ensures Marks(lines[j], Ids(c.rest)) ==> at + 6 + Width(c.body) <= j < at + Width(c)
  {
    hide Lies, Flatten, PlainCode, Open, Close;
    PartsArePlain(c);
    OpenClose(c.id);
    var z := at + 3 + Width(c.body);
    if at <= j < at + 3 {
      LiesAt(lines, at, Open(c.id), j - at);
    } else if at + 3 <= j < z {
      LiesAt(lines, at + 3, Flatten(c.body), j - at - 3);
      FlattenMarks(c.body, j - at - 3);
    } else if z <= j < z + 3 {
      LiesAt(lines, z, Close(c.id), j - z);
    } else if z + 3 <= j < at + Width(c) {
      LiesAt(lines, z + 3, Flatten(c.rest), j - z - 3);
      FlattenMarks(c.rest, j - z - 3);
    }
  }

  lemma OpenClose(id: nat)
    ensures Open(id)[0] == Mark(StartPar(id)) && !Open(id)[1].Mark? && !Open(id)[2].Mark?
    ensures Close(id)[0] == Mark(ClosePar(id)) && !Close(id)[1].Mark? && !Close(id)[2].Mark?
  {
  }

  lemma PartsArePlain(c: Code)
    requires c.While? && PlainCode(c)
    ensures PlainCode(c.body) && PlainCode(c.rest)
  {
  }

  lemma LiesAt(lines: seq<Line>, at: nat, part: seq<Line>, k: nat)
    requires Lies(lines, at, part) && k < |part|
    ensures at + k < |lines| && lines[at + k] == part[k]
  {
    assert lines[at + k] == lines[at..at + |part|][k];
  }

  lemma PlacedLoop(lines: seq<Line>, at: nat, id: nat, body: Code, rest: Code)
    requires Placed(lines, at, While(id, body, rest))
    ensures var z := at + 3 + Width(body);
      && z + 3 <= |lines|
      && lines[at] == Mark(StartPar(id)) && lines[at + 1] == TEST_ZERO && lines[at + 2] == Ins(JE, [Ref(ClosePar(id))])
      && lines[z] == Mark(ClosePar(id)) && lines[z + 1] == TEST_ZERO && lines[z + 2] == Ins(JNE, [Ref(StartPar(id))])
  {
    hide Flatten, Only, Width, Lies;
    PlacedLies(lines, at, id, body, rest);
    LiesAt(lines, at, Open(id), 0);
    LiesAt(lines, at, Open(id), 1);
    LiesAt(lines, at, Open(id), 2);
    var z := at + 3 + Width(body);
    LiesAt(lines, z, Close(id), 0);
    LiesAt(lines, z, Close(id), 1);
    LiesAt(lines, z, Close(id), 2);
  }

  /** The definition of Placed at a line and at a loop. */
  lemma PlacedThen(lines: seq<Line>, at: nat, c: Code)
    requires c.Then? && Placed(lines, at, c)
    ensures at < |lines| && lines[at] == c.line && Plain(c.line) && Placed(lines, at + 1, c.rest)
    ensures Width(c) == 1 + Width(c.rest)
  {
    hide Plain;
  }

  lemma PlacedWhile(lines: seq<Line>, at: nat, c: Code)
    requires c.While? && Placed(lines, at, c)
    ensures Placed(lines, at + 3, c.body) && Placed(lines, at + 6 + Width(c.body), c.rest)
    ensures Width(c) == 6 + Width(c.body) + Width(c.rest)
  {
    hide Plain, Lies, Only, Flatten;
  }

  lemma PlacedDone(lines: seq<Line>, at: nat, c: Code)
    requires c.Done?
    ensures Width(c) == 0 && Flatten(c) == []
  {
  }

  /** The six lines around the body of a loop. */
  lemma LoopLine(lines: seq<Line>, at: nat, c: Code, j: nat)
    requires c.While? && Placed(lines, at, c)
    requires at <= j < at + 3 || at + 3 + Width(c.body) <= j < at + 6 + Width(c.body)
    ensures j < |lines|
    ensures lines[j] in [Mark(StartPar(c.id)), Mark(ClosePar(c.id)), TEST_ZERO, Ins(JE, [Ref(ClosePar(c.id))]), Ins(JNE, [Ref(StartPar(c.id))])]
  {
    hide *;
    PlacedLoop(lines, at, c.id, c.body, c.rest);
  }

  lemma PlacedLies(lines: seq<Line>, at: nat, id: nat, body: Code, rest: Code)
    requires Placed(lines, at, While(id, body, rest))
    ensures Lies(lines, at, Open(id)) && Lies(lines, at + 3 + Width(body), Close(id))
    ensures at + 6 + Width(body) <= |lines|
  {
    hide Flatten, Only, Width;
  }

  lemma RunThree(lines: seq<Line>, k: Config)
    ensures Run(lines, k, 3) == Step(lines, Step(lines, Step(lines, k)))
  {
    hide Step;
    var k1 := Step(lines, k);
    var k2 := Step(lines, k1);
    assert Run(lines, k, 3) == Run(lines, k1, 2) == Run(lines, k2, 1) == Run(lines, Step(lines, k2), 0);
  }

  lemma PassMark(lines: seq<Line>, at: nat, s: Cpu)
    requires at < |lines| && lines[at].Mark?
    ensures Step(lines, Config(at, s, false)) == Config(at + 1, s, false)
  {
  }

  lemma LoopLabels(lines: seq<Line>, at: nat, id: nat, body: Code, rest: Code)
    requires Placed(lines, at, While(id, body, rest))
    ensures LabelAt(lines, StartPar(id)) == at && LabelAt(lines, ClosePar(id)) == at + 3 + Width(body)
  {
    hide Lies, Flatten, LabelAt, Width, Only;
    OnlyThere(lines, StartPar(id), at);
    OnlyThere(lines, ClosePar(id), at + 3 + Width(body));
  }

  /** The conditional jumps around a loop look at the flag that the test has set. */
  lemma TestedZero(s: Cpu)
    ensures forall l :: Taken(Ins(JE, [Ref(l)]), Tested(s)) == Tested(s).zero
    ensures forall l :: Taken(Ins(JNE, [Ref(l)]), Tested(s)) == !Tested(s).zero
  {
  }

  lemma JumpStep(lines: seq<Line>, at: nat, s: Cpu)
    requires at < |lines| && Jump(lines[at]) && LabelAt(lines, lines[at].args[0].l) >= 0
    ensures Step(lines, Config(at, s, false))
         == Config(if Taken(lines[at], s) then LabelAt(lines, lines[at].args[0].l) else at + 1, s, false)
  {
    hide Exec, LabelAt;
  }

  lemma TestStep(lines: seq<Line>, at: nat, s: Cpu)
    requires at < |lines| && lines[at] == TEST_ZERO
    ensures Step(lines, Config(at, s, false)) == Config(at + 1, Tested(s), false)
  {
  }

  /** The loop head: three lines lead into the body, or to the close label when the cell is 0. */
  lemma {:induction false} OpenSteps(lines: seq<Line>, at: nat, id: nat, body: Code, rest: Code, s: Cpu)
    requires Placed(lines, at, While(id, body, rest))
    ensures Run(lines, Config(at, s, false), 3)
         == Config(if Tested(s).zero then at + 3 + Width(body) else at + 3, Tested(s), false)
  {
    hide Exec, Flatten, LabelAt, Step, Placed, Only, Run, Tested, Width;
    PlacedLoop(lines, at, id, body, rest);
    LoopLabels(lines, at, id, body, rest);
    TestedZero(s);
    RunThree(lines, Config(at, s, false));
    PassMark(lines, at, s);
    TestStep(lines, at + 1, s);
    JumpStep(lines, at + 2, Tested(s));
  }

  /** The loop foot: three lines lead back to the head, or out when the cell is 0. */
  lemma {:induction false} CloseSteps(lines: seq<Line>, at: nat, id: nat, body: Code, rest: Code, s: Cpu)
    requires Placed(lines, at, While(id, body, rest))
    ensures Run(lines, Config(at + 3 + Width(body), s, false), 3)
         == Config(if Tested(s).zero then at + 6 + Width(body) else at, Tested(s), false)
  {
    hide Exec, Flatten, LabelAt, Step, Placed, Only, Run, Tested, Width;
    var z := at + 3 + Width(body);
    PlacedLoop(lines, at, id, body, rest);
    LoopLabels(lines, at, id, body, rest);
    TestedZero(s);
    RunThree(lines, Config(z, s, false));
    PassMark(lines, z, s);
    TestStep(lines, z + 1, s);
    JumpStep(lines, z + 2, Tested(s));
  }

  lemma RunNone(lines: seq<Line>, k: Config)
    ensures Run(lines, k, 0) == k
  {
  }

  /** A computing line takes one step. */
  lemma {:induction false} PlainStep(lines: seq<Line>, at: nat, s: Cpu, n: nat)
    requires at < |lines| && Plain(lines[at])
    ensures Run(lines, Config(at, s, false), n + 1) == Run(lines, Config(at + 1, Exec(lines[at], s), false), n)
  {
    hide Exec;
    assert Step(lines, Config(at, s, false)) == Config(at + 1, Exec(lines[at], s), false);
  }

  // ----- flat and structured runs agree -----

  /** A structured run that ends is a flat run from the first line of the code to its end. */
  lemma {:induction false} FlatFollows(lines: seq<Line>, at: nat, c: Code, s: Cpu, fuel: nat) returns (n: nat)
    requires Placed(lines, at, c) && PlainCode(c)
    requires EvalCode(fuel, c, s).Some?
    ensures Run(lines, Config(at, s, false), n) == Config(at + Width(c), EvalCode(fuel, c, s).value, false)
    decreases fuel, c
  {
    hide Exec, Step, Compare, Plain, Flatten, Lies, Only, Run;
    var k := Config(at, s, false);
    RunNone(lines, k);
    match c
    case Done => n := 0;
    case Then(line, rest) =>
      n := FlatFollows(lines, at + 1, rest, Exec(line, s), fuel);
      PlainStep(lines, at, s, n);
      n := n + 1;
    case While(id, body, rest) =>
      OpenSteps(lines, at, id, body, rest, s);
      TestedTwice(s);
      if Tested(s).zero {
        n := FlatLeaves(lines, at, c, Tested(s), fuel);
        RunAdd(lines, k, 3, n);
        n := 3 + n;
      } else {
        var m := FlatFollows(lines, at + 3, body, Tested(s), fuel - 1);
        RunAdd(lines, k, 3, m);
        var s1 := EvalCode(fuel - 1, body, Tested(s)).value;
        if Tested(s1).zero {
          n := FlatLeaves(lines, at, c, s1, fuel - 1);
          RunAdd(lines, k, 3 + m, n);
          n := 3 + m + n;
        } else {
          CloseSteps(lines, at, id, body, rest, s1);
          RunAdd(lines, k, 3 + m, 3);
          TestedTwice(s1);
          EvalTested(fuel - 1, c, s1);
          n := FlatFollows(lines, at, c, Tested(s1), fuel - 1);
          RunAdd(lines, k, 6 + m, n);
          n := 6 + m + n;
        }
      }
  }

  /** From the close label with a zero cell, the flat machine leaves the loop and runs the rest. */
  lemma {:induction false} FlatLeaves(lines: seq<Line>, at: nat, c: Code, s: Cpu, fuel: nat) returns (n: nat)
    requires c.While? && Placed(lines, at, c) && PlainCode(c)
    requires Tested(s).zero && EvalCode(fuel, c.rest, Tested(s)).Some?
    ensures Run(lines, Config(at + 3 + Width(c.body), s, false), n)
         == Config(at + Width(c), EvalCode(fuel, c.rest, Tested(s)).value, false)
    decreases fuel, c, 0
  {
    hide Exec, Step, Compare, Plain, Flatten, Lies, Only, Run;
    CloseSteps(lines, at, c.id, c.body, c.rest, s);
    n := FlatFollows(lines, at + 6 + Width(c.body), c.rest, Tested(s), fuel);
    RunAdd(lines, Config(at + 3 + Width(c.body), s, false), 3, n);
    n := 3 + n;
  }

  lemma TestedTwice(s: Cpu)
    ensures Tested(Tested(s)) == Tested(s)
  {
  }

  /** Setting the flags before a loop is lost: the loop starts with its own comparison. */
  lemma {:induction false} EvalTested(fuel: nat, c: Code, s: Cpu)
    requires c.While? && PlainCode(c)
    ensures EvalCode(fuel, c, Tested(s)) == EvalCode(fuel, c, s)
  {
    TestedTwice(s);
  }

  /** A flat run that halts has passed the end of the code, and did there what the structured
      run does. Together with FlatFollows: the flat code terminates iff the loops do. */
  lemma {:induction false} FlatHaltsThrough(lines: seq<Line>, at: nat, c: Code, s: Cpu, n: nat) returns (m: nat)
    requires Placed(lines, at, c) && PlainCode(c)
    requires Run(lines, Config(at, s, false), n).halted
    ensures m <= n && EvalCode(n, c, s).Some?
    ensures Run(lines, Config(at, s, false), m) == Config(at + Width(c), EvalCode(n, c, s).value, false)
    decreases n, c
  {
    hide Exec, Step, Compare, Plain, Flatten, Lies, Only, Run;
    var k := Config(at, s, false);
    RunNone(lines, k);
    match c
    case Done => m := 0;
    case Then(line, rest) =>
      PlainStep(lines, at, s, n - 1);
      m := FlatHaltsThrough(lines, at + 1, rest, Exec(line, s), n - 1);
      EvalCodeMonotone(n - 1, n, rest, Exec(line, s));
      PlainStep(lines, at, s, m);
      m := m + 1;
    case While(id, body, rest) =>
      OpenSteps(lines, at, id, body, rest, s);
      AtLeast(lines, k, n, 3);
      if Tested(s).zero {
        TestedTwice(s);
        m := FlatHaltsLeaving(lines, at, c, Tested(s), n - 3);
        EvalCodeMonotone(n - 3, n, rest, Tested(s));
        RunAdd(lines, k, 3, m);
        m := 3 + m;
      } else {
        var b := FlatHaltsThrough(lines, at + 3, body, Tested(s), n - 3);
        EvalCodeMonotone(n - 3, n - 1, body, Tested(s));
        var s1 := EvalCode(n - 1, body, Tested(s)).value;
        RunAdd(lines, k, 3, b);
        AtLeast(lines, k, n, 3 + b);
        m := FlatHaltsAgain(lines, at, c, s1, n - 3 - b);
        EvalCodeMonotone(n - 3 - b, n - 1, c, s1);
        RunAdd(lines, k, 3 + b, m);
        m := 3 + b + m;
      }
  }

  lemma {:induction false} FlatHaltsLeaving(lines: seq<Line>, at: nat, c: Code, s: Cpu, n: nat) returns (m: nat)
    requires c.While? && Placed(lines, at, c) && PlainCode(c) && Tested(s).zero
    requires Run(lines, Config(at + 3 + Width(c.body), s, false), n).halted
    ensures m <= n && EvalCode(n, c.rest, Tested(s)).Some?
    ensures Run(lines, Config(at + 3 + Width(c.body), s, false), m)
         == Config(at + Width(c), EvalCode(n, c.rest, Tested(s)).value, false)
    decreases n, c, 0
  {
    hide Exec, Step, Compare, Plain, Flatten, Lies, Only, Run;
    var k := Config(at + 3 + Width(c.body), s, false);
    CloseSteps(lines, at, c.id, c.body, c.rest, s);
    AtLeast(lines, k, n, 3);
    m := FlatHaltsThrough(lines, at + 6 + Width(c.body), c.rest, Tested(s), n - 3);
    EvalCodeMonotone(n - 3, n, c.rest, Tested(s));
    RunAdd(lines, k, 3, m);
    m := 3 + m;
  }

  /** The same from the close label, whether or not the loop goes round again. */
  lemma {:induction false} FlatHaltsAgain(lines: seq<Line>, at: nat, c: Code, s: Cpu, n: nat) returns (m: nat)
    requires c.While? && Placed(lines, at, c) && PlainCode(c)
    requires Run(lines, Config(at + 3 + Width(c.body), s, false), n).halted
    ensures m <= n && EvalCode(n, c, s).Some?
    ensures Run(lines, Config(at + 3 + Width(c.body), s, false), m)
         == Config(at + Width(c), EvalCode(n, c, s).value, false)
    decreases n, c, 1
  {
    hide Exec, Step, Compare, Plain, Flatten, Lies, Only, Run;
    if Tested(s).zero {
      m := FlatHaltsLeaving(lines, at, c, s, n);
    } else {
      var k := Config(at + 3 + Width(c.body), s, false);
      CloseSteps(lines, at, c.id, c.body, c.rest, s);
      AtLeast(lines, k, n, 3);
      TestedTwice(s);
      m := FlatHaltsThrough(lines, at, c, Tested(s), n - 3);
      EvalTested(n - 3, c, s);
      EvalCodeMonotone(n - 3, n, c, s);
      RunAdd(lines, k, 3, m);
      m := 3 + m;
    }
  }

  /** A machine that is still running after `m` lines and halts within `n` lines has `n - m` of them left. */
  lemma {:induction false} AtLeast(lines: seq<Line>, k: Config, n: nat, m: nat)
    requires Run(lines, k, n).halted && !Run(lines, k, m).halted
    ensures m <= n && Run(lines, Run(lines, k, m), n - m).halted
  {
    if m <= n {
      RunAdd(lines, k, m, n - m);
    } else {
      RunAdd(lines, k, n, m - n);
      RunHalted(lines, Run(lines, k, n), m - n);
    }
  }
}
