/** Which texts compile to assembly without numerals above 255, as far as the text alone can tell. */
module TextLimits {
  import opened Bytes
  import opened Brainfuck
  import opened Source
  import opened Asm
  import opened Machine
  import opened CodeTrees
  import opened Translate
  import opened FoldRuns
  import opened LoopPass
  import opened MultiplyLoops
  import opened LoopTrees
  import opened NarrowLoops
  import opened Assembler
  import opened Compiler
  import opened EndToEnd
  import opened Limits
  import Vm

  // ----- runs of steps in a text -----

  /** A run counts '+' against '-' in one cell, or '>' against '<'. */
  datatype Run = NoRun | Cells(net: int) | Steps(net: int)

  function Count(r: Run): int { if r.NoRun? then 0 else r.net }

  predicate Small(n: int) { -255 <= n <= 255 }

  /** What is left of a run behind a command that is not part of it: a run that has cancelled out
      stays open, so that commands of the other kind go on not being counted. */
  function Ended(r: Run): Run { if Count(r) == 0 then r else NoRun }

  /** The command ends the run. Of the other kind of step, the first command is not counted itself. */
  predicate Ends(r: Run, c: char) {
    match c
    case '+' | '-' => r.Steps?
    case '>' | '<' => r.Cells?
    case '.' | ',' | '[' | ']' => true
    case _ => false
  }

  function Read(r: Run, c: char): Run {
    if Ends(r, c) then Ended(r)
    else
      match c
      case '+' => Cells(Count(r) + 1)
      case '-' => Cells(Count(r) - 1)
      case '>' => Steps(Count(r) + 1)
      case '<' => Steps(Count(r) - 1)
      case _ => r
  }

  /** Wherever a run ends, in the text or at its end, its net count is at most 255 either way. */
  predicate SmallRuns(r: Run, src: string)
    decreases |src|
  {
    if src == [] then Small(Count(r))
    else (Ends(r, src[0]) ==> Small(Count(r))) && SmallRuns(Read(r, src[0]), src[1..])
  }

  predicate NoBrackets(s: string) { '[' !in s && ']' !in s }

  // ----- runs in the text are runs of the pass -----

  function PendingOf(r: Run): Pending {
    match r
    case NoRun => IDLE
    case Cells(net) => Pending(true, false, net)
    case Steps(net) => Pending(false, true, net)
  }

  lemma FlushIsEnd(r: Run)
    ensures PendingOf(r).Valid()
    ensures Narrow(FlushLines(PendingOf(r))) <==> Small(Count(r))
    ensures Flushed(PendingOf(r)) == PendingOf(Ended(r)) && Ended(Ended(r)) == Ended(r) && Count(Ended(r)) == 0
  {
    var st := PendingOf(r);
    if st.acc != 0 {
      var line := AddLine(Target(st), st.acc);
      assert FlushLines(st) == [line];
      assert NarrowLine(line) <==> NarrowOperand(line.args[1]);
      assert [line][0] == line;
    }
  }

  lemma {:induction false} StepIsRead(r: Run, cmd: Cmd)
    ensures Next(PendingOf(r), LineOf(cmd)) == PendingOf(Read(r, Symbol(cmd)))
    ensures Narrow(Emitted(PendingOf(r), LineOf(cmd))) <==> (Ends(r, Symbol(cmd)) ==> Small(Count(r)))
  {
    hide FlushLines, Narrow, Flushed;
    FlushIsEnd(r);
    UnitIsNarrow(cmd);
    NarrowParts(FlushLines(PendingOf(r)), [LineOf(cmd)]);
  }

  lemma UnitIsNarrow(cmd: Cmd)
    ensures Narrow([LineOf(cmd)]) && Narrow([])
  {
  }

  lemma LoopLinesAreNarrow(id: nat)
    ensures Narrow(Open(id)) && Narrow(Close(id))
  {
  }

  /** Run folding writes no numeral above 255 for a program iff all runs in its text are small. */
  lemma {:induction false} FoldNarrow(p: Prog, n: nat, r: Run, t: string) returns (r1: Run)
    requires t == [] || t[0] == ']'
    ensures FoldTree(Tree(p, n), PendingOf(r)).1 == PendingOf(r1) && Ended(r1) == r1
    ensures SmallRuns(r, Text(p) + t) <==>
      Narrow(Flatten(FoldTree(Tree(p, n), PendingOf(r)).0)) && SmallRuns(r1, t)
    decreases p
  {
    hide Flatten, Narrow, SmallRuns, PendingOf, Ended, Read, Ends, Text, FlushLines, Emitted, Next, Flushed;
    match p
    case End => r1 := FoldNarrowEnd(n, r, t);
    case Do(cmd, rest) =>
      StepIsRead(r, cmd);
      r1 := FoldNarrow(rest, n, Read(r, Symbol(cmd)), t);
      TextOfStep(cmd, rest);
      Associate([Symbol(cmd)], Text(rest), t);
      SmallCons(r, Symbol(cmd), Text(rest) + t);
      var emitted := Emitted(PendingOf(r), LineOf(cmd));
      var code := FoldTree(Tree(rest, n), Next(PendingOf(r), LineOf(cmd))).0;
      FlattenPrepend(emitted, code);
      NarrowParts(emitted, Flatten(code));
    case Loop(body, rest) =>
      FlushIsEnd(r);
      var tail := [']'] + (Text(rest) + t);
      var r0 := FoldNarrow(body, n + 1, Ended(r), tail);
      r1 := FoldNarrow(rest, n + 1 + Loops(body), r0, t);
      FoldNarrowLoop(p, n, r, t);
      SmallAround(p, r, t);
      SmallCons(r0, ']', Text(rest) + t);
      BracketsEnd(r0);
      FlushIsEnd(r0);
  }

  lemma SmallCons(r: Run, c: char, s: string)
    ensures SmallRuns(r, [c] + s) <==> (Ends(r, c) ==> Small(Count(r))) && SmallRuns(Read(r, c), s)
  {
    assert ([c] + s)[1..] == s;
  }

  lemma BracketsEnd(r: Run)
    ensures Ends(r, '[') && Ends(r, ']') && Read(r, '[') == Ended(r) && Read(r, ']') == Ended(r)
    ensures Ended(r) == r ==> Small(Count(r))
  {
  }

  lemma FoldNarrowEnd(n: nat, r: Run, t: string) returns (r1: Run)
    requires t == [] || t[0] == ']'
    ensures FoldTree(Tree(End, n), PendingOf(r)).1 == PendingOf(r1) && Ended(r1) == r1
    ensures SmallRuns(r, Text(End) + t) <==>
      Narrow(Flatten(FoldTree(Tree(End, n), PendingOf(r)).0)) && SmallRuns(r1, t)
  {
    hide FlushLines, Narrow, Flushed, PendingOf;
    FlushIsEnd(r);
    r1 := Ended(r);
    BracketsEnd(r);
    BracketsEnd(r1);
    assert Text(End) + t == t;
    FlattenDone();
    FlattenPrepend(FlushLines(PendingOf(r)), Done);
    Tidy(FlushLines(PendingOf(r)), []);
    if t != [] {
      assert t == [']'] + t[1..];
      SmallCons(r, ']', t[1..]);
      SmallCons(r1, ']', t[1..]);
    }
  }

  lemma SmallAround(p: Prog, r: Run, t: string)
    requires p.Loop?
    ensures SmallRuns(r, Text(p) + t) <==>
      Small(Count(r)) && SmallRuns(Ended(r), Text(p.body) + ([']'] + (Text(p.rest) + t)))
  {
    hide Text, SmallRuns, Ended, Read, Ends;
    LoopText(p.body, p.rest);
    var tail := [']'] + Text(p.rest);
    Associate(['['], Text(p.body) + tail, t);
    Associate(Text(p.body), tail, t);
    Associate([']'], Text(p.rest), t);
    SmallCons(r, '[', Text(p.body) + ([']'] + (Text(p.rest) + t)));
    BracketsEnd(r);
  }

  lemma FoldNarrowLoop(p: Prog, n: nat, r: Run, t: string)
    requires p.Loop?
    ensures var b := FoldTree(Tree(p.body, n + 1), Flushed(PendingOf(r)));
      var rest := FoldTree(Tree(p.rest, n + 1 + Loops(p.body)), b.1);
      && FoldTree(Tree(p, n), PendingOf(r)).1 == rest.1
      && (Narrow(Flatten(FoldTree(Tree(p, n), PendingOf(r)).0)) <==>
            Narrow(FlushLines(PendingOf(r))) && Narrow(Flatten(b.0)) && Narrow(Flatten(rest.0)))
  {
    hide Flatten, Narrow, PendingOf, FlushLines, Flushed, Open, Close;
    var b := FoldTree(Tree(p.body, n + 1), Flushed(PendingOf(r)));
    var rest := FoldTree(Tree(p.rest, n + 1 + Loops(p.body)), b.1);
    var loop := While(n, b.0, rest.0);
    FlattenPrepend(FlushLines(PendingOf(r)), loop);
    NarrowParts(FlushLines(PendingOf(r)), Flatten(loop));
    NarrowWhile(loop);
  }

  lemma NarrowWhile(c: Code)
    requires c.While?
    ensures Narrow(Flatten(c)) <==> Narrow(Flatten(c.body)) && Narrow(Flatten(c.rest))
  {
    hide Flatten, Narrow, Open, Close;
    FlattenWhile(c);
    LoopLinesAreNarrow(c.id);
    NarrowParts(Open(c.id) + Flatten(c.body) + Close(c.id), Flatten(c.rest));
    NarrowParts(Open(c.id) + Flatten(c.body), Close(c.id));
    NarrowParts(Open(c.id), Flatten(c.body));
  }

  /** Comments do not matter. */
  lemma {:induction false} SmallStripped(r: Run, src: string)
    ensures SmallRuns(r, src) <==> SmallRuns(r, Strip(src))
    decreases |src|
  {
    if src != [] {
      SmallStripped(Read(r, src[0]), src[1..]);
      if IsCommand(src[0]) {
        SmallCons(r, src[0], Strip(src[1..]));
      } else {
        assert Strip(src) == Strip(src[1..]);
      }
    }
  }

  /** For a whole text: the folded code has no numeral above 255 iff all runs in the text are small. */
  lemma {:induction false} FoldedNarrow(src: string)
    requires Balanced(src)
    ensures Narrow(Flatten(Folded(src))) <==> SmallRuns(NoRun, src)
  {
    hide Flatten, Narrow, Tree, FoldTree, Program, Strip, Text, Depth, Dips;
    SmallStripped(NoRun, src);
    var r1 := FoldNarrow(Program(src), 0, NoRun, []);
    assert Text(Program(src)) + [] == Text(Program(src));
    BracketsEnd(r1);
  }

  // ----- texts without loops -----

  lemma {:induction false} FlatText(p: Prog)
    ensures NoBrackets(Text(p)) <==> Loops(p) == 0
  {
    match p
    case End =>
    case Do(cmd, rest) => FlatText(rest);
    case Loop(body, rest) => assert Text(p)[0] == '[';
  }

  lemma {:induction false} StripBrackets(src: string)
    requires NoBrackets(src)
    ensures NoBrackets(Strip(src)) && Depth(src) == 0
  {
    if src != [] { StripBrackets(src[1..]); }
  }

  lemma {:induction false} FlatIsBalanced(src: string)
    requires NoBrackets(src)
    ensures Balanced(src) && Loops(Program(src)) == 0
  {
    StripBrackets(src);
    forall k | 0 <= k <= |src| ensures Depth(src[..k]) == 0 { StripBrackets(src[..k]); }
    FlatText(Program(src));
  }

  /** A text without loops is compiled correctly iff all its runs are small. */
  lemma {:induction false} FlatTextExact(src: string, s: Vm.State)
    requires NoBrackets(src) && Balanced(src) && JustLoaded(Assembled(Compiled(src)), s)
    ensures Agrees(src, s) <==> SmallRuns(NoRun, src)
  {
    hide Flatten, Narrow, Program, JustLoaded, Agrees, SmallRuns, NoBrackets, Balanced;
    FlatIsBalanced(src);
    StraightStages(src);
    FoldedNarrow(src);
    FlatOptimised(src);
    LoopFreeExact(src, s);
  }

  lemma FlatOptimised(src: string)
    requires Balanced(src) && Loops(Program(src)) == 0
    ensures Narrow(Compiled(src)) <==> Narrow(Flatten(Folded(src)))
  {
    hide Flatten, Narrow, Program, Tree, FoldTree;
    TreeStraight(Program(src), 0);
    FoldStraight(Parsed(src), IDLE);
    OptStraight(Folded(src));
    CompiledNarrow(src);
  }

  /** The frame has no numeral above 255. */
  lemma CompiledNarrow(src: string)
    requires Balanced(src)
    ensures Narrow(Compiled(src)) <==> Narrow(Flatten(Optimised(src)))
  {
    hide Flatten, Optimised, Compiled, Framed;
    FramedCompiled(src);
    FramedIs(Optimised(src));
    NarrowParts(PROLOGUE + Flatten(Optimised(src)), [HALT_LINE]);
    NarrowParts(PROLOGUE, Flatten(Optimised(src)));
  }

  /** A run of moves that has cancelled out keeps any number of plus signs apart: where PlusesExact has a
      program that fails from 256 on, this one never does. */
  lemma {:induction false} StickyRun(k: nat)
    ensures var src := "><" + Pluses(k);
      NoBrackets(src) && SmallRuns(NoRun, src) && Balanced(src) && Narrow(Compiled(src))
  {
    hide *;
    var src := "><" + Pluses(k);
    StickyText(k);
    FlatIsBalanced(src);
    FoldedNarrow(src);
    FlatOptimised(src);
  }

  lemma StickyText(k: nat)
    ensures NoBrackets("><" + Pluses(k)) && SmallRuns(NoRun, "><" + Pluses(k))
  {
    PlusesHaveNoBrackets(k);
    assert ("><" + Pluses(k))[1..][1..] == Pluses(k);
    StickyPluses(k);
  }

  lemma {:induction false} PlusesHaveNoBrackets(k: nat)
    ensures NoBrackets(Pluses(k))
  {
    if k > 0 { PlusesHaveNoBrackets(k - 1); }
  }

  lemma {:induction false} StickyPluses(k: nat)
    ensures SmallRuns(Steps(0), Pluses(k))
  {
    if k > 0 {
      StickyPluses(k - 1);
      assert Pluses(k)[1..] == Pluses(k - 1);
    }
  }

  // ----- the effort behind a multiply loop -----

  function Abs(n: int): nat { if n < 0 then -n else n }

  /** How far a line moves, or by how much it changes a cell. */
  function LineEffort(line: Line): nat { if Moves(line) || Changes(line) then Abs(Amount(line)) else 0 }

  function Effort(lines: seq<Line>): nat {
    if lines == [] then 0 else LineEffort(lines[0]) + Effort(lines[1..])
  }

  lemma {:induction false} EffortAdd(a: seq<Line>, b: seq<Line>)
    ensures Effort(a + b) == Effort(a) + Effort(b)
  {
    hide LineEffort;
    if a == [] {
      assert a + b == b;
    } else {
      assert (a + b)[1..] == a[1..] + b;
      EffortAdd(a[1..], b);
    }
  }

  lemma StepEffort(st: Pending, cmd: Cmd)
    ensures Effort(FlushLines(st)) <= Abs(st.acc)
    ensures Effort(Emitted(st, LineOf(cmd))) + Abs(Next(st, LineOf(cmd)).acc) <= Abs(st.acc) + 1
  {
    EffortAdd(FlushLines(st), [LineOf(cmd)]);
  }

  /** Folding does not add effort: a straight program takes at most one unit for each command. */
  lemma {:induction false} FoldEffort(p: Prog, n: nat, st: Pending)
    requires Loops(p) == 0
    ensures Effort(Flatten(FoldTree(Tree(p, n), st).0)) <= Abs(st.acc) + |Text(p)|
    decreases p
  {
    hide Flatten, FlushLines, Emitted, Next, Flushed, Effort, Abs;
    match p
    case End =>
      StepEffort(st, Inc);
      FlattenDone();
      FlattenPrepend(FlushLines(st), Done);
      Tidy(FlushLines(st), []);
    case Do(cmd, rest) =>
      StepEffort(st, cmd);
      var emitted := Emitted(st, LineOf(cmd));
      var st1 := Next(st, LineOf(cmd));
      FoldEffort(rest, n, st1);
      FlattenPrepend(emitted, FoldTree(Tree(rest, n), st1).0);
      EffortAdd(emitted, Flatten(FoldTree(Tree(rest, n), st1).0));
  }

  /** All changes lie between `lo` and `hi`, and none is larger than `most`. */
  predicate Within(mods: seq<CellMod>, lo: int, hi: int, most: int) {
    forall i :: 0 <= i < |mods| ==> lo <= mods[i].offset <= hi && -most <= mods[i].value <= most
  }

  /** Effort bounds the window of offsets that a body visits, and every net change. */
  lemma {:induction false} TallyWindow(body: seq<Line>, t: Tally, lo: int, hi: int, most: nat) returns (lo1: int, hi1: int)
    requires TallyAll(body, t).Some? && lo <= 0 <= hi && lo <= t.ptr <= hi && Within(t.mods, lo, hi, most)
    ensures lo1 <= 0 <= hi1 && hi1 - lo1 <= hi - lo + Effort(body)
    ensures Within(TallyAll(body, t).value.mods, lo1, hi1, most + Effort(body))
    decreases |body|
  {
    hide IndexOf;
    if body == [] {
      lo1, hi1 := lo, hi;
    } else {
      var t1 := TallyLine(t, body[0]);
      var far := Abs(Amount(body[0]));
      lo1 := if t1.ptr < lo then t1.ptr else lo;
      hi1 := if t1.ptr > hi then t1.ptr else hi;
      lo1, hi1 := TallyWindow(body[1..], t1, lo1, hi1, most + far);
    }
  }

  lemma WithinSorted(mods: seq<CellMod>, lo: int, hi: int, most: int)
    requires Within(mods, lo, hi, most)
    ensures Within(SortMods(mods), lo, hi, most)
  {
    hide SortMods;
    SortModsSorts(mods);
    var sorted := SortMods(mods);
    forall i | 0 <= i < |sorted| ensures lo <= sorted[i].offset <= hi && -most <= sorted[i].value <= most {
      assert sorted[i] in multiset(sorted);
      assert sorted[i] in multiset(mods);
      var j :| 0 <= j < |mods| && mods[j] == sorted[i];
    }
  }

  lemma MoveIsNarrow(d: int)
    requires -255 <= d <= 255
    ensures Narrow(MoveBy(d))
  {
  }

  lemma ScaledIsNarrow(value: int, last: bool)
    requires value <= 255
    ensures Narrow(AddScaled(value, last))
  {
  }

  lemma {:induction false} StepsAreNarrow(mods: seq<CellMod>, cur: int, lo: int, hi: int)
    requires Within(mods, lo, hi, 255) && lo <= 0 <= hi && lo <= cur <= hi && hi - lo <= 255
    ensures Narrow(MulSteps(mods, cur))
    decreases |mods|
  {
    hide Narrow, MoveBy, AddScaled;
    if mods == [] {
      MoveIsNarrow(-cur);
    } else {
      var m := mods[0];
      var scaled := AddScaled(m.value, |mods| == 1);
      MoveIsNarrow(m.offset - cur);
      ScaledIsNarrow(m.value, |mods| == 1);
      StepsAreNarrow(mods[1..], m.offset, lo, hi);
      NarrowParts(MoveBy(m.offset - cur), scaled);
      NarrowParts(MoveBy(m.offset - cur) + scaled, MulSteps(mods[1..], m.offset));
    }
  }

  /** A body of little effort has a narrow replacement. */
  lemma LightReplacement(body: seq<Line>)
    requires Replacement(body).Some? && Effort(body) <= 255
    ensures Narrow(Replacement(body).value)
  {
    hide *;
    ReplacedIsTallied(body);
    MulLinesIs(body);
    if body == CLEAR_BODY {
      ClearIsNarrow();
    } else {
      AnalysedParts(body);
      var mods := Net(body);
      WithinNone();
      var lo, hi := TallyWindow(body, Tally([], 0), 0, 0, 0);
      WithinPart(mods, IndexOf(mods, 0), lo, hi, Effort(body));
      WithinSorted(Analyse(body).value, lo, hi, 255);
      StepsAreNarrow(SortMods(Analyse(body).value), 0, lo, hi);
      HeadIsNarrow();
      NarrowParts([Ins(MOV, [Direct(B), At(A)]), CLEAR_LINE], MulSteps(SortMods(Analyse(body).value), 0));
    }
  }

  lemma MulLinesIs(body: seq<Line>)
    ensures Analyse(body).Some? ==>
      MulLines(Analyse(body).value)
        == [Ins(MOV, [Direct(B), At(A)]), CLEAR_LINE] + MulSteps(SortMods(Analyse(body).value), 0)
    ensures TallyAll(body, Tally([], 0)).Some? ==> Net(body) == TallyAll(body, Tally([], 0)).value.mods
  {
    hide Analyse, MulSteps, SortMods, TallyAll;
  }

  lemma ClearIsNarrow()
    ensures Replacement(CLEAR_BODY) == Some([CLEAR_LINE]) && Narrow([CLEAR_LINE])
  {
  }

  lemma HeadIsNarrow()
    ensures Narrow([Ins(MOV, [Direct(B), At(A)]), CLEAR_LINE])
  {
  }

  lemma WithinNone()
    ensures Within([], 0, 0, 0)
  {
  }

  lemma WithinPart(mods: seq<CellMod>, i: nat, lo: int, hi: int, most: int)
    requires Within(mods, lo, hi, most) && i < |mods| && most <= 255
    ensures Within(mods[..i] + mods[i + 1..], lo, hi, 255)
  {
  }

  // ----- texts with loops -----

  /** Replaced loops have bodies of little effort. */
  predicate LightLoops(c: Code) {
    match c
    case Done => true
    case Then(_, rest) => LightLoops(rest)
    case While(_, body, rest) =>
      && (Replacement(Flatten(body)).Some? ==> Effort(Flatten(body)) <= 255)
      && LightLoops(body) && LightLoops(rest)
  }

  lemma {:induction false} OptNarrow(c: Code)
    requires Narrow(Flatten(c)) && LightLoops(c)
    ensures Narrow(Flatten(OptTree(c)))
  {
    hide Flatten, Narrow, Replacement, Effort;
    match c
    case Done => assert OptTree(Done) == Done;
    case Then(line, rest) =>
      FlattenThen(line, rest);
      FlattenThen(line, OptTree(rest));
      NarrowParts([line], Flatten(rest));
      OptNarrow(rest);
      NarrowParts([line], Flatten(OptTree(rest)));
    case While(id, body, rest) =>
      NarrowWhile(c);
      OptNarrow(body);
      OptNarrow(rest);
      if Replacement(Flatten(body)).Some? {
        var code := Replacement(Flatten(body)).value;
        LightReplacement(Flatten(body));
        FlattenPrepend(code, OptTree(rest));
        NarrowParts(code, Flatten(OptTree(rest)));
      } else {
        NarrowWhile(OptTree(c));
      }
  }

  lemma {:induction false} LightPrepend(lines: seq<Line>, c: Code)
    ensures LightLoops(Prepend(lines, c)) <==> LightLoops(c)
  {
    hide Replacement, Effort, Flatten;
    if lines != [] { LightPrepend(lines[1..], c); }
  }

  /** Loop bodies without loops have at most 255 commands. */
  predicate ShortLoops(p: Prog) {
    match p
    case End => true
    case Do(_, rest) => ShortLoops(rest)
    case Loop(body, rest) => (Loops(body) == 0 ==> |Text(body)| <= 255) && ShortLoops(body) && ShortLoops(rest)
  }

  /** A body that the pass replaces has no loop in it. */
  lemma TalliedHasNoLoops(body: Prog, n: nat, st: Pending)
    requires Replacement(Flatten(FoldTree(Tree(body, n), st).0)).Some?
    ensures Loops(body) == 0
  {
    hide Replacement, FoldTree, Flatten;
    var c := FoldTree(Tree(body, n), st).0;
    ReplacedIsTallied(Flatten(c));
    TalliedHasNoIds(c, Tally([], 0));
    FoldKeepsLoops(Tree(body, n), st);
    if Loops(body) > 0 { LoopsHaveIds(body, n); }
  }

  lemma {:induction false} TalliedHasNoIds(c: Code, t: Tally)
    requires TallyAll(Flatten(c), t).Some?
    ensures Ids(c) == {}
    decreases c
  {
    hide TallyLine;
    match c
    case Done =>
    case Then(line, rest) =>
      assert Flatten(c)[1..] == Flatten(rest);
      TalliedHasNoIds(rest, TallyLine(t, line));
    case While(_, _, _) =>
      LoopIsNotTallied(c, t);
      assert false;
  }

  lemma {:induction false} LoopsHaveIds(p: Prog, n: nat)
    requires Loops(p) > 0
    ensures Ids(Tree(p, n)) != {}
  {
    match p
    case End =>
    case Do(_, rest) => LoopsHaveIds(rest, n);
    case Loop(body, rest) => assert n in Ids(Tree(p, n));
  }

  lemma {:induction false} FoldLight(p: Prog, n: nat, st: Pending)
    requires ShortLoops(p)
    ensures LightLoops(FoldTree(Tree(p, n), st).0)
    decreases p
  {
    hide Flatten, FlushLines, Emitted, Next, Replacement, Effort, Text;
    match p
    case End => LightPrepend(FlushLines(st), Done);
    case Do(cmd, rest) =>
      var st1 := Next(st, LineOf(cmd));
      FoldLight(rest, n, st1);
      LightPrepend(Emitted(st, LineOf(cmd)), FoldTree(Tree(rest, n), st1).0);
    case Loop(body, rest) =>
      var b := FoldTree(Tree(body, n + 1), Flushed(st));
      FoldLight(body, n + 1, Flushed(st));
      FoldLight(rest, n + 1 + Loops(body), b.1);
      FoldLightBody(body, n + 1, st);
      LightPrepend(FlushLines(st), While(n, b.0, FoldTree(Tree(rest, n + 1 + Loops(body)), b.1).0));
  }

  lemma FoldLightBody(body: Prog, n: nat, st: Pending)
    requires Loops(body) == 0 ==> |Text(body)| <= 255
    ensures var lines := Flatten(FoldTree(Tree(body, n), Flushed(st)).0);
      Replacement(lines).Some? ==> Effort(lines) <= 255
  {
    hide Flatten, FoldTree, Tree, Replacement, Effort, Text;
    if Replacement(Flatten(FoldTree(Tree(body, n), Flushed(st)).0)).Some? {
      TalliedHasNoLoops(body, n, Flushed(st));
      FoldEffort(body, n, Flushed(st));
    }
  }

  /** A matching pair of brackets without brackets between them encloses at most 255 commands. */
  predicate ShortBodies(s: string) {
    forall i, j :: 0 <= i < j < |s| && s[i] == '[' && s[j] == ']' && NoBrackets(s[i + 1..j]) ==> j - i - 1 <= 255
  }

  lemma {:induction false} BodiesOf(pre: string, p: Prog, post: string)
    requires ShortBodies(pre + Text(p) + post)
    ensures ShortLoops(p)
    decreases p
  {
    hide Text, ShortBodies, NoBrackets;
    match p
    case End =>
    case Do(cmd, rest) =>
      TextOfStep(cmd, rest);
      Associate(pre, [Symbol(cmd)], Text(rest));
      BodiesOf(pre + [Symbol(cmd)], rest, post);
    case Loop(body, rest) =>
      LoopText(body, rest);
      var s := pre + Text(p) + post;
      assert s == (pre + ['[']) + Text(body) + ([']'] + Text(rest) + post);
      assert s == (pre + ['['] + Text(body) + [']']) + Text(rest) + post;
      BodiesOf(pre + ['['], body, [']'] + Text(rest) + post);
      BodiesOf(pre + ['['] + Text(body) + [']'], rest, post);
      FlatText(body);
      assert s == pre + ['['] + Text(body) + [']'] + (Text(rest) + post);
      ShortHere(pre, Text(body), Text(rest) + post);
  }

  lemma ShortHere(pre: string, body: string, post: string)
    requires ShortBodies(pre + ['['] + body + [']'] + post)
    ensures NoBrackets(body) ==> |body| <= 255
  {
    var s := pre + ['['] + body + [']'] + post;
    var i, j := |pre|, |pre| + 1 + |body|;
    assert s[i] == '[' && s[j] == ']' && s[i + 1..j] == body;
  }

  /** A condition on the text: its runs are small, and so are its innermost loops. */
  lemma {:induction false} TextIsNarrow(src: string)
    requires Balanced(src) && SmallRuns(NoRun, src) && ShortBodies(Strip(src))
    ensures Narrow(Compiled(src))
  {
    hide Flatten, Narrow, Tree, FoldTree, OptTree, Program, Strip, Text, Depth, Dips;
    FoldedNarrow(src);
    var p := Program(src);
    assert [] + Text(p) + [] == Text(p);
    BodiesOf([], p, []);
    FoldLight(p, 0, IDLE);
    OptNarrow(Folded(src));
    CompiledNarrow(src);
  }

  // ----- the exact condition with loops -----

  /** From `cur`, the moves to each changed cell and back, and the factors, fit a cell. */
  predicate SmallGaps(sorted: seq<CellMod>, cur: int)
    decreases |sorted|
  {
    if sorted == [] then Small(cur)
    else Small(sorted[0].offset - cur) && sorted[0].value <= 255 && SmallGaps(sorted[1..], sorted[0].offset)
  }

  lemma MoveNarrowExact(d: int)
    ensures Narrow(MoveBy(d)) <==> Small(d)
  {
    if d != 0 {
      assert MoveBy(d) == [MoveBy(d)[0]];
      OneLineNarrow(MoveBy(d)[0]);
      assert MoveBy(d)[0].args == [Direct(A), MoveBy(d)[0].args[1]];
    }
  }

  lemma OneLineNarrow(line: Line)
    ensures Narrow([line]) <==> NarrowLine(line)
    ensures line.Ins? && |line.args| == 2 ==> (NarrowLine(line) <==> NarrowOperand(line.args[0]) && NarrowOperand(line.args[1]))
  {
    assert [line][0] == line;
  }

  lemma ScaledNarrowExact(value: int, last: bool)
    ensures Narrow(AddScaled(value, last)) <==> value <= 255
  {
    if value > 255 {
      var i := if last then 0 else 1;
      assert !NarrowOperand(AddScaled(value, last)[i].args[1]);
    }
  }

  lemma {:induction false} StepsNarrowExact(mods: seq<CellMod>, cur: int)
    ensures Narrow(MulSteps(mods, cur)) <==> SmallGaps(mods, cur)
    decreases |mods|
  {
    hide Narrow, MoveBy, AddScaled;
    if mods == [] {
      MoveNarrowExact(-cur);
    } else {
      var m := mods[0];
      var scaled := AddScaled(m.value, |mods| == 1);
      MoveNarrowExact(m.offset - cur);
      ScaledNarrowExact(m.value, |mods| == 1);
      StepsNarrowExact(mods[1..], m.offset);
      NarrowParts(MoveBy(m.offset - cur), scaled);
      NarrowParts(MoveBy(m.offset - cur) + scaled, MulSteps(mods[1..], m.offset));
    }
  }

  /** A replaced body has small gaps between the cells that it changes, and small net changes. */
  predicate SmallChanges(body: seq<Line>) {
    Analyse(body).Some? && body != CLEAR_BODY ==> SmallGaps(SortMods(Analyse(body).value), 0)
  }

  lemma ReplacementNarrowExact(body: seq<Line>)
    requires Replacement(body).Some?
    ensures Narrow(Replacement(body).value) <==> SmallChanges(body)
  {
    hide Analyse, MulSteps, SortMods, TallyAll, Narrow, SmallGaps;
    ReplacedIsTallied(body);
    if body == CLEAR_BODY {
      ClearIsNarrow();
    } else {
      var sorted := SortMods(Analyse(body).value);
      MulLinesIs(body);
      StepsNarrowExact(sorted, 0);
      HeadIsNarrow();
      NarrowParts([Ins(MOV, [Direct(B), At(A)]), CLEAR_LINE], MulSteps(sorted, 0));
    }
  }

  /** What the loop pass leaves has no numeral above 255: lines outside replaced loops are narrow, and replaced
      bodies change little. */
  predicate NarrowWithLoops(c: Code) {
    match c
    case Done => true
    case Then(line, rest) => NarrowLine(line) && NarrowWithLoops(rest)
    case While(_, body, rest) =>
      && (if Replacement(Flatten(body)).Some? then SmallChanges(Flatten(body)) else NarrowWithLoops(body))
      && NarrowWithLoops(rest)
  }

  lemma {:induction false} OptNarrowExact(c: Code)
    ensures Narrow(Flatten(OptTree(c))) <==> NarrowWithLoops(c)
  {
    hide Flatten, Narrow, Replacement, SmallChanges, NarrowLine;
    match c
    case Done =>
      FlattenDone();
      NothingIsNarrow();
    case Then(line, rest) =>
      FlattenThen(line, OptTree(rest));
      OneLineNarrow(line);
      OptNarrowExact(rest);
      NarrowParts([line], Flatten(OptTree(rest)));
    case While(id, body, rest) =>
      OptNarrowExact(rest);
      if Replacement(Flatten(body)).Some? {
        var code := Replacement(Flatten(body)).value;
        ReplacementNarrowExact(Flatten(body));
        FlattenPrepend(code, OptTree(rest));
        NarrowParts(code, Flatten(OptTree(rest)));
      } else {
        OptNarrowExact(body);
        NarrowWhile(OptTree(c));
      }
  }

  lemma NothingIsNarrow()
    ensures Narrow([])
  {
  }

  /** Exactly when a text with loops compiles without numerals above 255, by its folded loops. */
  lemma NarrowExact(src: string)
    requires Balanced(src)
    ensures Narrow(Compiled(src)) <==> NarrowWithLoops(Folded(src))
  {
    hide *;
    CompiledNarrow(src);
    OptimisedIs(src);
    OptNarrowExact(Folded(src));
  }

  lemma OptimisedIs(src: string)
    requires Balanced(src)
    ensures Optimised(src) == OptTree(Folded(src))
  {
    hide Folded, OptTree;
  }

  /** No stretch of commands between two brackets has more than 255 of them. */
  predicate ShortStretches(s: string) {
    forall i, j :: 0 <= i <= j <= |s| && NoBrackets(s[i..j]) ==> j - i <= 255
  }

  lemma {:induction false} ShortIsSmall(r: Run, s: string, k: nat)
    requires ShortStretches(s) && Abs(Count(r)) <= k
    requires forall j :: 0 <= j <= |s| && NoBrackets(s[..j]) ==> k + j <= 255
    ensures SmallRuns(r, s)
    decreases |s|
  {
    assert NoBrackets(s[..0]);
    if s != [] {
      TailIsShort(s);
      if s[0] == '[' || s[0] == ']' {
        forall j | 0 <= j <= |s[1..]| && NoBrackets(s[1..][..j]) ensures j <= 255 {
          assert s[1..][..j] == s[1..j + 1];
        }
        ShortIsSmall(Read(r, s[0]), s[1..], 0);
      } else {
        forall j | 0 <= j <= |s[1..]| && NoBrackets(s[1..][..j]) ensures k + 1 + j <= 255 {
          assert s[..j + 1] == [s[0]] + s[1..][..j];
          assert NoBrackets(s[..j + 1]);
        }
        ShortIsSmall(Read(r, s[0]), s[1..], k + 1);
      }
    }
  }

  lemma TailIsShort(s: string)
    requires ShortStretches(s) && s != []
    ensures ShortStretches(s[1..])
  {
    forall i, j | 0 <= i <= j <= |s[1..]| && NoBrackets(s[1..][i..j]) ensures j - i <= 255 {
      assert s[1..][i..j] == s[i + 1..j + 1];
    }
  }

  /** The simplest condition: nowhere more than 255 commands without a bracket. */
  lemma {:induction false} ShortTextIsNarrow(src: string)
    requires Balanced(src) && ShortStretches(Strip(src))
    ensures SmallRuns(NoRun, src) && ShortBodies(Strip(src)) && Narrow(Compiled(src))
  {
    hide Compiled, Strip, Balanced;
    var s := Strip(src);
    forall j | 0 <= j <= |s| && NoBrackets(s[..j]) ensures j <= 255 { assert s[..j] == s[0..j]; }
    ShortIsSmall(NoRun, s, 0);
    SmallStripped(NoRun, src);
    forall i, j | 0 <= i < j < |s| && s[i] == '[' && s[j] == ']' && NoBrackets(s[i + 1..j]) ensures j - i - 1 <= 255 {
      assert 0 <= i + 1 <= j <= |s|;
    }
    TextIsNarrow(src);
  }

  /** Compilation is correct for every balanced text that meets the condition. */
  lemma {:induction false} TextIsCompiledCorrectly(src: string, s: Vm.State, w: World)
    requires Balanced(src) && SmallRuns(NoRun, src) && ShortBodies(Strip(src))
    requires JustLoaded(Assembled(Compiled(src)), s)
    ensures HaltsWith(s, w) <==> Terminates(Program(src), StartWorld(s), w)
  {
    hide Compiled, Narrow, JustLoaded, HaltsWith, Terminates, FRESH_CELLS, SmallRuns, ShortBodies;
    TextIsNarrow(src);
    CompilerIsCorrect(src, s, w);
  }
}
