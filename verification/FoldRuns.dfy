/** `Brainfvck::apply_optimizations`: runs of equal steps become one instruction. */
module FoldRuns {
  import opened Bytes
  import opened Asm
  import opened Machine
  import opened CodeTrees

  /** The state of the pass between two lines. At most one mode is on, and a count is pending only
      in a mode; a mode may stay on with nothing pending, because `flush` then returns early. */
  datatype Pending = Pending(math: bool, ptr: bool, acc: int) {
    predicate Valid() { !(math && ptr) && (acc != 0 ==> math || ptr) }
  }

  const IDLE := Pending(false, false, 0)

  datatype Kind = CellStep(delta: int) | PtrStep(delta: int) | Barrier

  /** Operands whose text starts with the letter A. */
  predicate StartsWithA(op: Operand) {
    op == Direct(A) || (op.Ref? && op.l.Other? && op.l.name != [] && op.l.name[0] == 'A')
  }

  /** The prefix tests of the pass, which count every matching line as a single step. */
  function KindOf(line: Line): Kind {
    if line.Ins? && line.m in {ADD, SUB} && line.args != [] then
      var delta := if line.m == ADD then 1 else -1;
      if line.args[0] == At(A) then CellStep(delta)
      else if StartsWithA(line.args[0]) then PtrStep(delta)
      else Barrier
    else Barrier
  }

  /** The line that adds `n`, which is not 0, to `op`. */
  function AddLine(op: Operand, n: int): Line {
    if n > 0 then Ins(ADD, [op, Num(n)]) else Ins(SUB, [op, Num(-n)])
  }

  /** What the pending count will change: the current cell, or the data pointer. */
  function Target(st: Pending): Operand { if st.math then At(A) else Direct(A) }

  function FlushLines(st: Pending): seq<Line> {
    if st.acc != 0 && (st.math || st.ptr) then [AddLine(Target(st), st.acc)] else []
  }

  function Flushed(st: Pending): Pending { if st.acc == 0 then st else IDLE }

  /** Whether the line is absorbed into the pending count. */
  predicate Absorbs(st: Pending, line: Line) {
    match KindOf(line)
    case CellStep(_) => !st.ptr || st.math
    case PtrStep(_) => !st.math || st.ptr
    case Barrier => false
  }

  function Next(st: Pending, line: Line): Pending {
    if !Absorbs(st, line) then Flushed(st)
    else
      match KindOf(line)
      case CellStep(delta) => Pending(true, st.ptr, st.acc + delta)
      case PtrStep(delta) => Pending(st.math, true, st.acc + delta)
      case Barrier => st
  }

  function Emitted(st: Pending, line: Line): seq<Line> {
    if Absorbs(st, line) then [] else FlushLines(st) + [line]
  }

  /** The output of the pass on `lines` in state `st`. */
  function Fold(lines: seq<Line>, st: Pending): seq<Line>
    decreases |lines|
  {
    if lines == [] then FlushLines(st)
    else Emitted(st, lines[0]) + Fold(lines[1..], Next(st, lines[0]))
  }

  // ----- the pass on structured code -----

  function Prepend(lines: seq<Line>, c: Code): Code {
    if lines == [] then c else Then(lines[0], Prepend(lines[1..], c))
  }

  /** The folded tree and the state after its text. Loop labels flush, so a run never crosses one. */
  function FoldTree(c: Code, st: Pending): (Code, Pending)
    decreases c
  {
    match c
    case Done => (Prepend(FlushLines(st), Done), Flushed(st))
    case Then(line, rest) =>
      var r := FoldTree(rest, Next(st, line));
      (Prepend(Emitted(st, line), r.0), r.1)
    case While(id, body, rest) =>
      var b := FoldTree(body, Flushed(st));
      var r := FoldTree(rest, b.1);
      (Prepend(FlushLines(st), While(id, b.0, r.0)), r.1)
  }

  lemma {:induction false} FlattenPrepend(lines: seq<Line>, c: Code)
    ensures Flatten(Prepend(lines, c)) == lines + Flatten(c)
  {
    if lines == [] {
      assert lines + Flatten(c) == Flatten(c);
    } else {
      FlattenPrepend(lines[1..], c);
      FlattenStep(lines[0], Prepend(lines[1..], c), []);
      hide Flatten;
      assert lines == [lines[0]] + lines[1..];
      Associate([lines[0]], lines[1..], Flatten(c));
      Tidy(Flatten(Prepend(lines, c)), lines);
      Tidy(Flatten(Prepend(lines[1..], c)), lines);
    }
  }

  lemma FoldCons(line: Line, lines: seq<Line>, st: Pending)
    ensures Fold([line] + lines, st) == Emitted(st, line) + Fold(lines, Next(st, line))
  {
    assert ([line] + lines)[1..] == lines;
  }

  /** Three lines of which none is a step: what is pending is flushed before them. */
  lemma FoldBarriers(three: seq<Line>, lines: seq<Line>, st: Pending)
    requires |three| == 3
    requires KindOf(three[0]).Barrier? && KindOf(three[1]).Barrier? && KindOf(three[2]).Barrier?
    ensures Fold(three + lines, st) == FlushLines(st) + three + Fold(lines, Flushed(st))
  {
    assert three + lines == [three[0]] + ([three[1]] + ([three[2]] + lines));
    FoldCons(three[0], [three[1]] + ([three[2]] + lines), st);
    FoldCons(three[1], [three[2]] + lines, Flushed(st));
    FoldCons(three[2], lines, Flushed(st));
  }

  lemma FoldAtBarrier(lines: seq<Line>, st: Pending)
    requires lines == [] || KindOf(lines[0]).Barrier?
    ensures Fold(lines, st) == FlushLines(st) + Fold(lines, Flushed(st))
  {
  }

  /** The pass on text is the pass on trees: it commutes with flattening, in any context whose next
      line is not a step. */
  lemma {:induction false} FoldFlattens(c: Code, st: Pending, post: seq<Line>)
    requires post == [] || KindOf(post[0]).Barrier?
    ensures Fold(Flatten(c) + post, st) == Flatten(FoldTree(c, st).0) + Fold(post, FoldTree(c, st).1)
    decreases c
  {
    hide Fold, Flatten, KindOf, FlushLines, Next, Emitted, Flushed;
    match c
    case Done =>
      FlattenDone();
      FlattenPrepend(FlushLines(st), Done);
      FoldAtBarrier(post, st);
      Tidy(FlushLines(st), post);
    case Then(line, rest) =>
      FlattenStep(line, rest, post);
      FoldCons(line, Flatten(rest) + post, st);
      var r := FoldTree(rest, Next(st, line));
      FoldFlattens(rest, Next(st, line), post);
      FlattenPrepend(Emitted(st, line), r.0);
      Associate(Emitted(st, line), Flatten(r.0), Fold(post, r.1));
    case While(id, body, rest) =>
      FoldFlattensLoop(c, st, post);
  }

  lemma FlattenDone()
    ensures Flatten(Done) == []
  {
  }

  lemma FlattenStep(line: Line, rest: Code, post: seq<Line>)
    ensures Flatten(Then(line, rest)) + post == [line] + (Flatten(rest) + post)
  {
  }

  lemma Tidy(a: seq<Line>, b: seq<Line>)
    ensures a + [] == a && [] + b == b
  {
  }

  lemma {:induction false} FoldFlattensLoop(c: Code, st: Pending, post: seq<Line>)
    requires c.While?
    requires post == [] || KindOf(post[0]).Barrier?
    ensures Fold(Flatten(c) + post, st) == Flatten(FoldTree(c, st).0) + Fold(post, FoldTree(c, st).1)
    decreases c, 0
  {
    hide Fold, Flatten, KindOf, FlushLines, Next, Emitted, Flushed, Open, Close;
    var (open, close) := (Open(c.id), Close(c.id));
    var b := FoldTree(c.body, Flushed(st));
    var r := FoldTree(c.rest, b.1);
    var tail := Flatten(c.rest) + post;
    LoopLinesAreBarriers(c.id);
    FlattenWhile(c);
    GroupLoop(open, Flatten(c.body), close, Flatten(c.rest), post);
    FoldBarriers(open, Flatten(c.body) + (close + tail), st);
    HeadOfSum(close, tail);
    FoldFlattens(c.body, Flushed(st), close + tail);
    FoldBarriers(close, tail, b.1);
    FoldTreeIsFlushed(c.body, Flushed(st));
    Tidy(close, close);
    FoldFlattens(c.rest, b.1, post);
    FlattenPrepend(FlushLines(st), While(c.id, b.0, r.0));
    FlattenWhile(While(c.id, b.0, r.0));
    GroupLoop(open, Flatten(b.0), close, Flatten(r.0), Fold(post, r.1));
    Associate(FlushLines(st), open, Flatten(b.0) + (close + (Flatten(r.0) + Fold(post, r.1))));
    Associate(FlushLines(st), Flatten(While(c.id, b.0, r.0)), Fold(post, r.1));
  }

  lemma LoopLinesAreBarriers(id: nat)
    ensures forall k :: 0 <= k < 3 ==> KindOf(Open(id)[k]).Barrier? && KindOf(Close(id)[k]).Barrier?
  {
  }

  lemma HeadOfSum(a: seq<Line>, b: seq<Line>)
    requires a != []
    ensures a + b != [] && (a + b)[0] == a[0]
  {
  }

  lemma GroupLoop(a: seq<Line>, b: seq<Line>, c: seq<Line>, d: seq<Line>, e: seq<Line>)
    ensures a + b + c + d + e == a + (b + (c + (d + e)))
  {
    assert a + b + c + d + e == a + (b + c + d + e);
  }

  /** After a tree nothing is pending (though a mode may still be on). */
  lemma {:induction false} FoldTreeIsFlushed(c: Code, st: Pending)
    ensures FoldTree(c, st).1.acc == 0
    ensures FlushLines(FoldTree(c, st).1) == [] && Flushed(FoldTree(c, st).1) == FoldTree(c, st).1
  {
    match c
    case Done =>
    case Then(line, rest) => FoldTreeIsFlushed(rest, Next(st, line));
    case While(id, body, rest) => FoldTreeIsFlushed(rest, FoldTree(body, Flushed(st)).1);
  }

  // ----- meaning -----

  /** Every step line moves by one: true of what the first stage writes. */
  predicate UnitSteps(c: Code) {
    match c
    case Done => true
    case Then(line, rest) =>
      && (!KindOf(line).Barrier? ==> |line.args| == 2 && line.args[1] == Num(1) && !line.args[0].Ref?)
      && UnitSteps(rest)
    case While(_, body, rest) => UnitSteps(body) && UnitSteps(rest)
  }

  /** Adding `n` to `op`, modulo 256. */
  function Added(s: Cpu, op: Operand, n: int): Cpu
    requires Writable(op)
  {
    Put(s, op, Wrap(Value(s, op) + n))
  }

  /** The effect that has been read but not yet written out. */
  function Apply(st: Pending, s: Cpu): Cpu { Added(s, Target(st), st.acc) }

  predicate IsTarget(op: Operand) { op == At(A) || op == Direct(A) }

  lemma {:induction false} AddedTwice(s: Cpu, op: Operand, m: int, n: int)
    requires IsTarget(op)
    ensures Added(Added(s, op, m), op, n) == Added(s, op, m + n)
    ensures Added(s, op, 0) == s
  {
    hide Put, Value;
    WrapAdd(Value(s, op) + m, n);
    PutTwice(s, op, Wrap(Value(s, op) + m), Wrap(Value(s, op) + m + n));
  }

  lemma {:induction false} PutTwice(s: Cpu, op: Operand, x: Byte, y: Byte)
    requires IsTarget(op)
    ensures Value(Put(s, op, x), op) == x && Put(Put(s, op, x), op, y) == Put(s, op, y)
    ensures Put(s, op, Value(s, op)) == s
  {
    assert s.cells[s.a := x][s.a := y] == s.cells[s.a := y];
    assert s.cells[s.a := s.cells[s.a]] == s.cells;
  }

  lemma ApplyNothing(st: Pending)
    requires st.acc == 0
    ensures forall s :: Apply(st, s) == s
  {
    forall s ensures Apply(st, s) == s { AddedTwice(s, Target(st), 0, 0); }
  }

  /** ADD and SUB of a numeral add it or its negation modulo 256. */
  lemma AddingLine(op: Operand, n: int, s: Cpu)
    requires IsTarget(op)
    ensures var line := Ins(ADD, [op, Num(n)]); Plain(line) && Exec(line, s) == Added(s, op, n)
    ensures var line := Ins(SUB, [op, Num(n)]); Plain(line) && Exec(line, s) == Added(s, op, -n)
    ensures Plain(AddLine(op, n)) && Exec(AddLine(op, n), s) == Added(s, op, n)
  {
    var v: int := Value(s, op);
    WrapAdd(v, n);
    WrapAdd(v, -n);
  }

  function ExecAll(lines: seq<Line>, s: Cpu): Cpu
    requires forall i :: 0 <= i < |lines| ==> Plain(lines[i])
    decreases |lines|
  {
    if lines == [] then s else ExecAll(lines[1..], Exec(lines[0], s))
  }

  lemma {:induction false} EvalPrepend(fuel: nat, lines: seq<Line>, c: Code, s: Cpu)
    requires PlainCode(c) && forall i :: 0 <= i < |lines| ==> Plain(lines[i])
    ensures PlainCode(Prepend(lines, c))
    ensures EvalCode(fuel, Prepend(lines, c), s) == EvalCode(fuel, c, ExecAll(lines, s))
    decreases |lines|
  {
    if lines != [] { EvalPrepend(fuel, lines[1..], c, Exec(lines[0], s)); }
  }

  lemma FlushMeans(st: Pending, s: Cpu)
    requires st.Valid()
    ensures forall i :: 0 <= i < |FlushLines(st)| ==> Plain(FlushLines(st)[i])
    ensures ExecAll(FlushLines(st), s) == Apply(st, s)
    ensures Flushed(st).Valid() && Flushed(st).acc == 0
  {
    hide Exec, Plain, Added;
    AddingLine(Target(st), st.acc, s);
    AddedTwice(s, Target(st), 0, 0);
    ExecOne(AddLine(Target(st), st.acc), s);
  }

  lemma ExecOne(line: Line, s: Cpu)
    requires Plain(line)
    ensures ExecAll([line], s) == Exec(line, s)
  {
    assert [line][1..] == [];
  }

  /** Absorbing a step keeps the total effect: emitted prefix, then pending count. */
  lemma {:induction false} StepMeans(st: Pending, line: Line, s: Cpu)
    requires st.Valid() && Plain(line)
    requires !KindOf(line).Barrier? ==> line.args[1] == Num(1) && !line.args[0].Ref?
    ensures Next(st, line).Valid()
    ensures forall i :: 0 <= i < |Emitted(st, line)| ==> Plain(Emitted(st, line)[i])
    ensures Apply(Next(st, line), ExecAll(Emitted(st, line), s)) == Exec(line, Apply(st, s))
  {
    if Absorbs(st, line) {
      AbsorbMeans(st, line, s);
    } else {
      FlushMeans(st, s);
      ExecAllSplit(FlushLines(st), line, s);
    }
  }

  lemma {:induction false} ExecAllSplit(lines: seq<Line>, line: Line, s: Cpu)
    requires Plain(line) && forall i :: 0 <= i < |lines| ==> Plain(lines[i])
    ensures ExecAll(lines + [line], s) == Exec(line, ExecAll(lines, s))
    decreases |lines|
  {
    hide Exec, Plain;
    if lines == [] {
      assert [line][1..] == [] && [] + [line] == [line];
    } else {
      assert (lines + [line])[1..] == lines[1..] + [line];
      ExecAllSplit(lines[1..], line, Exec(lines[0], s));
    }
  }

  lemma AbsorbMeans(st: Pending, line: Line, s: Cpu)
    requires st.Valid() && Plain(line) && Absorbs(st, line)
    requires line.args[1] == Num(1) && !line.args[0].Ref?
    ensures Next(st, line).Valid()
    ensures Apply(Next(st, line), s) == Exec(line, Apply(st, s))
  {
    hide Exec, Added;
    var after := Next(st, line);
    var mode := Pending(after.math, after.ptr, st.acc);
    AddedTwice(s, Target(mode), 0, 0);
    AddedTwice(s, Target(st), 0, 0);
    assert Apply(st, s) == Apply(mode, s);
    assert line == Ins(line.m, [line.args[0], line.args[1]]);
    AddingLine(Target(mode), 1, Apply(st, s));
    AddedTwice(s, Target(mode), st.acc, after.acc - st.acc);
  }

  /** Run folding preserves meaning: the folded code does, from any state, what the original code
      does after the pending effect, with the same fuel, on the whole state. */
  lemma {:induction false} FoldMeans(fuel: nat, c: Code, st: Pending, s: Cpu)
    requires PlainCode(c) && UnitSteps(c) && st.Valid()
    ensures FoldTree(c, st).1.Valid() && PlainCode(FoldTree(c, st).0)
    ensures EvalCode(fuel, FoldTree(c, st).0, s) == EvalCode(fuel, c, Apply(st, s))
    decreases fuel, c
  {
    hide Exec, Plain, Apply, FlushLines, Flushed, Next, Emitted, KindOf, Compare;
    match c
    case Done =>
      FlushMeans(st, s);
      EvalPrepend(fuel, FlushLines(st), Done, s);
    case Then(line, rest) =>
      StepMeans(st, line, s);
      var emitted := Emitted(st, line);
      FoldMeans(fuel, rest, Next(st, line), ExecAll(emitted, s));
      EvalPrepend(fuel, emitted, FoldTree(rest, Next(st, line)).0, s);
    case While(id, body, rest) =>
      FlushMeans(st, s);
      var b := FoldTree(body, Flushed(st));
      FoldIsPlain(body, Flushed(st));
      FoldIsPlain(rest, b.1);
      var loop := While(id, b.0, FoldTree(rest, b.1).0);
      EvalPrepend(fuel, FlushLines(st), loop, s);
      FoldLoopMeans(fuel, c, Flushed(st), Apply(st, s));
  }

  lemma {:induction false} FoldLoopMeans(fuel: nat, c: Code, st: Pending, s: Cpu)
    requires c.While? && PlainCode(c) && UnitSteps(c) && st.Valid() && st.acc == 0
    ensures FoldTree(c.body, st).1.Valid() && FoldTree(c.body, st).1.acc == 0
    ensures PlainCode(FoldTree(c.body, st).0) && PlainCode(FoldTree(c.rest, FoldTree(c.body, st).1).0)
    ensures EvalCode(fuel, While(c.id, FoldTree(c.body, st).0, FoldTree(c.rest, FoldTree(c.body, st).1).0), s)
         == EvalCode(fuel, c, s)
    decreases fuel, c, 0
  {
    hide Exec, Plain, FlushLines, Flushed, Next, Emitted, KindOf, Compare, FoldTree;
    FoldIsPlain(c.body, st);
    FoldTreeIsFlushed(c.body, st);
    var st1 := FoldTree(c.body, st).1;
    FoldIsPlain(c.rest, st1);
    ApplyNothing(st);
    ApplyNothing(st1);
    if Tested(s).zero {
      FoldMeans(fuel, c.rest, st1, Tested(s));
    } else if fuel > 0 {
      FoldMeans(fuel - 1, c.body, st, Tested(s));
      var r := EvalCode(fuel - 1, c.body, Tested(s));
      if r.Some? { FoldLoopMeans(fuel - 1, c, st, r.value); }
    }
  }

  lemma {:induction false} FoldIsPlain(c: Code, st: Pending)
    requires PlainCode(c) && UnitSteps(c) && st.Valid()
    ensures FoldTree(c, st).1.Valid() && PlainCode(FoldTree(c, st).0)
    decreases c
  {
    hide Exec, Plain, Apply, FlushLines, Flushed, Next, Emitted, KindOf;
    var s := Cpu(seq(256, i => 0), 0, 0, 0, 0, false, false, [], []);
    match c
    case Done =>
      FlushMeans(st, s);
      EvalPrepend(0, FlushLines(st), Done, s);
    case Then(line, rest) =>
      StepMeans(st, line, s);
      FoldIsPlain(rest, Next(st, line));
      EvalPrepend(0, Emitted(st, line), FoldTree(rest, Next(st, line)).0, s);
    case While(id, body, rest) =>
      FlushMeans(st, s);
      FoldIsPlain(body, Flushed(st));
      FoldIsPlain(rest, FoldTree(body, Flushed(st)).1);
      var b := FoldTree(body, Flushed(st));
      EvalPrepend(0, FlushLines(st), While(id, b.0, FoldTree(rest, b.1).0), s);
  }

  /** Folding keeps the loops and their identifiers. */
  lemma {:induction false} FoldKeepsLoops(c: Code, st: Pending)
    ensures Ids(FoldTree(c, st).0) == Ids(c)
    ensures Distinct(c) ==> Distinct(FoldTree(c, st).0)
    decreases c
  {
    match c
    case Done => PrependKeepsLoops(FlushLines(st), Done);
    case Then(line, rest) =>
      FoldKeepsLoops(rest, Next(st, line));
      PrependKeepsLoops(Emitted(st, line), FoldTree(rest, Next(st, line)).0);
    case While(id, body, rest) =>
      var b := FoldTree(body, Flushed(st));
      FoldKeepsLoops(body, Flushed(st));
      FoldKeepsLoops(rest, b.1);
      PrependKeepsLoops(FlushLines(st), While(id, b.0, FoldTree(rest, b.1).0));
  }

  lemma {:induction false} PrependKeepsLoops(lines: seq<Line>, c: Code)
    ensures Ids(Prepend(lines, c)) == Ids(c) && Distinct(Prepend(lines, c)) == Distinct(c)
  {
    if lines != [] { PrependKeepsLoops(lines[1..], c); }
  }

  lemma FoldNext(done: seq<Line>, lines: seq<Line>, i: nat, st: Pending)
    requires i < |lines|
    ensures done + Fold(lines[i..], st) == done + Emitted(st, lines[i]) + Fold(lines[i + 1..], Next(st, lines[i]))
  {
    hide Fold, Emitted, Next;
    assert lines[i..] == [lines[i]] + lines[i + 1..];
    FoldCons(lines[i], lines[i + 1..], st);
    Associate(done, Emitted(st, lines[i]), Fold(lines[i + 1..], Next(st, lines[i])));
  }

  /** The pass itself. */
  method ApplyOptimizations(lines: seq<Line>) returns (optimized: seq<Line>)
    ensures optimized == Fold(lines, IDLE)
  {
    hide Fold, FlushLines, KindOf;
    optimized := [];
    var accumulatingMath, accumulatingPtr, accumulated := false, false, 0;
    var i := 0;
    assert lines[0..] == lines;
    while i < |lines|
      invariant 0 <= i <= |lines|
      invariant optimized + Fold(lines[i..], Pending(accumulatingMath, accumulatingPtr, accumulated)) == Fold(lines, IDLE)
    {
      var line := lines[i];
      FoldNext(optimized, lines, i, Pending(accumulatingMath, accumulatingPtr, accumulated));
      i := i + 1;
      match KindOf(line) {
        case CellStep(delta) =>
          if !accumulatingMath && !accumulatingPtr {
            accumulatingMath := true;
          }
          if accumulatingMath {
            accumulated := accumulated + delta;
            continue;
          }
        case PtrStep(delta) =>
          if !accumulatingMath && !accumulatingPtr {
            accumulatingPtr := true;
          }
          if accumulatingPtr {
            accumulated := accumulated + delta;
            continue;
          }
        case Barrier =>
      }
      optimized := optimized + (FlushLines(Pending(accumulatingMath, accumulatingPtr, accumulated)) + [line]);
      if accumulated != 0 {
        accumulated, accumulatingMath, accumulatingPtr := 0, false, false;
      }
    }
    FoldNothing(lines[i..], Pending(accumulatingMath, accumulatingPtr, accumulated));
    optimized := optimized + FlushLines(Pending(accumulatingMath, accumulatingPtr, accumulated));
  }

  lemma FoldNothing(lines: seq<Line>, st: Pending)
    requires |lines| == 0
    ensures Fold(lines, st) == FlushLines(st)
  {
  }
}
