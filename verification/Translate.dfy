/** The first stage of `Brainfvck::compile`: Brainfuck text to labelled assembly. */
module Translate {
  import opened Bytes
  import opened Brainfuck
  import opened Source
  import opened Asm
  import opened Machine
  import opened CodeTrees

  /** The lines that precede every program. The directive reserves the tape. */
  const PROLOGUE: seq<Line> := [Skip(30000), Mark(Start), Ins(MOV, [Direct(A), Num(2)])]

  /** The body of a loop over the characters: lines so far, next identifier, open brackets. */
  datatype Scan = Scan(lines: seq<Line>, next: nat, open: seq<nat>) | Unmatched

  function LineOf(cmd: Cmd): Line {
    match cmd
    case Right => Ins(ADD, [Direct(A), Num(1)])
    case Left => Ins(SUB, [Direct(A), Num(1)])
    case Inc => Ins(ADD, [At(A), Num(1)])
    case Dec => Ins(SUB, [At(A), Num(1)])
    case Out => Ins(PRINT, [At(A)])
    case In => Ins(INPUT, [At(A)])
  }

  function Emit(st: Scan, c: char): Scan {
    if st.Unmatched? then st
    else if c == '[' then Scan(st.lines + Open(st.next), st.next + 1, st.open + [st.next])
    else if c == ']' then
      if st.open == [] then Unmatched
      else Scan(st.lines + Close(st.open[|st.open| - 1]), st.next, st.open[..|st.open| - 1])
    else if IsCommand(c) then st.(lines := st.lines + [LineOf(CommandOf(c))])
    else st
  }

  function EmitAll(st: Scan, src: string): Scan
    decreases |src|
  {
    if src == [] then st else EmitAll(Emit(st, src[0]), src[1..])
  }

  // ----- the structured program behind the text -----

  function Loops(p: Prog): nat {
    match p
    case End => 0
    case Do(_, rest) => Loops(rest)
    case Loop(body, rest) => 1 + Loops(body) + Loops(rest)
  }

  /** The structured code of `p`; its loops are numbered from `n` in the order of their opening brackets. */
  function Tree(p: Prog, n: nat): Code {
    match p
    case End => Done
    case Do(cmd, rest) => Then(LineOf(cmd), Tree(rest, n))
    case Loop(body, rest) => While(n, Tree(body, n + 1), Tree(rest, n + 1 + Loops(body)))
  }

  lemma {:induction false} TreeIsPlain(p: Prog, n: nat)
    ensures PlainCode(Tree(p, n))
  {
    match p
    case End =>
    case Do(cmd, rest) => TreeIsPlain(rest, n);
    case Loop(body, rest) =>
      TreeIsPlain(body, n + 1);
      TreeIsPlain(rest, n + 1 + Loops(body));
  }

  /** Loop numbers are unique and lie in one interval. */
  lemma {:induction false} TreeIsDistinct(p: Prog, n: nat)
    ensures Distinct(Tree(p, n))
    ensures forall id :: id in Ids(Tree(p, n)) ==> n <= id < n + Loops(p)
  {
    match p
    case End =>
    case Do(cmd, rest) => TreeIsDistinct(rest, n);
    case Loop(body, rest) =>
      TreeIsDistinct(body, n + 1);
      TreeIsDistinct(rest, n + 1 + Loops(body));
  }

  /** The structured code means what the Brainfuck program means, with the same fuel: it stops iff
      the program stops, and then shows the same tape, pointer, input and output. */
  lemma {:induction false} TreeMeans(fuel: nat, p: Prog, n: nat, s: Cpu)
    ensures PlainCode(Tree(p, n))
    ensures EvalCode(fuel, Tree(p, n), s).Some? <==> Eval(fuel, p, Core(s)).Some?
    ensures EvalCode(fuel, Tree(p, n), s).Some? ==>
      Core(EvalCode(fuel, Tree(p, n), s).value) == Eval(fuel, p, Core(s)).value
    decreases fuel, p
  {
    TreeIsPlain(p, n);
    match p
    case End =>
    case Do(cmd, rest) =>
      LineOfMeans(cmd, s);
      TreeMeans(fuel, rest, n, Exec(LineOf(cmd), s));
    case Loop(body, rest) =>
      assert Core(Tested(s)) == Core(s);
      if Here(Core(s)) == 0 {
        TreeMeans(fuel, rest, n + 1 + Loops(body), Tested(s));
      } else if fuel > 0 {
        TreeMeans(fuel - 1, body, n + 1, Tested(s));
        var r := EvalCode(fuel - 1, Tree(body, n + 1), Tested(s));
        if r.Some? { TreeMeans(fuel - 1, p, n, r.value); }
      }
  }

  lemma LineOfMeans(cmd: Cmd, s: Cpu)
    ensures Plain(LineOf(cmd)) && Core(Exec(LineOf(cmd), s)) == Perform(cmd, Core(s))
  {
  }

  // ----- the scan, proved -----

  /** Unmatched closing brackets are found iff the text dips below the brackets open so far, and
      otherwise the stack grows by the nesting depth of the text. */
  lemma {:induction false} ScanDepth(st: Scan, src: string)
    requires st.Scan?
    ensures EmitAll(st, src).Unmatched? <==> exists k :: 0 <= k <= |src| && |st.open| + Depth(src[..k]) < 0
    ensures EmitAll(st, src).Scan? ==> |EmitAll(st, src).open| == |st.open| + Depth(src)
    decreases |src|
  {
    if src == [] {
      assert src[..0] == [];
    } else {
      var st1 := Emit(st, src[0]);
      forall k | 0 <= k <= |src| - 1
        ensures Depth(src[..k + 1]) == Nesting(src[0]) + Depth(src[1..][..k])
      {
        assert src[..k + 1] == [src[0]] + src[1..][..k];
        DepthCons(src[0], src[1..][..k]);
      }
      if st1.Unmatched? {
        StuckScan(src[1..]);
        assert |st.open| + Depth(src[..0 + 1]) < 0 by { assert src[1..][..0] == []; }
      } else {
        ScanDepth(st1, src[1..]);
        if k :| 0 <= k <= |src[1..]| && |st1.open| + Depth(src[1..][..k]) < 0 {
          assert |st.open| + Depth(src[..k + 1]) < 0;
        }
        if k :| 0 <= k <= |src| && |st.open| + Depth(src[..k]) < 0 {
          assert src[..0] == [];
          assert |st1.open| + Depth(src[1..][..k - 1]) < 0 by { assert Depth(src[..k - 1 + 1]) < 0 - |st.open|; }
        }
      }
    }
  }

  lemma {:induction false} StuckScan(src: string)
    ensures EmitAll(Unmatched, src) == Unmatched
  {
    if src != [] { StuckScan(src[1..]); }
  }

  lemma {:induction false} EmitTwo(st: Scan, a: string, b: string)
    ensures EmitAll(st, a + b) == EmitAll(EmitAll(st, a), b)
    decreases |a|
  {
    if a == [] {
      assert a + b == b;
    } else {
      assert (a + b)[1..] == a[1..] + b;
      EmitTwo(Emit(st, a[0]), a[1..], b);
    }
  }

  lemma EmitOne(st: Scan, c: char, s: string)
    ensures EmitAll(st, [c] + s) == EmitAll(Emit(st, c), s)
  {
    assert ([c] + s)[1..] == s;
  }

  lemma {:induction false} EmitStripped(st: Scan, src: string)
    ensures EmitAll(st, src) == EmitAll(st, Strip(src))
    decreases |src|
  {
    if src != [] {
      EmitStripped(Emit(st, src[0]), src[1..]);
      EmitOne(st, src[0], Strip(src[1..]));
      assert [] + Strip(src[1..]) == Strip(src[1..]);
    }
  }

  /** Scanning the text of a program appends its flattened tree and leaves the bracket stack as it was. */
  lemma {:induction false} EmitText(st: Scan, p: Prog)
    requires st.Scan?
    ensures EmitAll(st, Text(p))
         == Scan(st.lines + Flatten(Tree(p, st.next)), st.next + Loops(p), st.open)
    decreases p
  {
    hide *;
    match p
    case End => EmitNothing(st);
    case Do(cmd, rest) =>
      TextOfStep(cmd, rest);
      TreeOfStep(cmd, rest, st.next);
      EmitStep(st, cmd);
      EmitOne(st, Symbol(cmd), Text(rest));
      EmitText(Emit(st, Symbol(cmd)), rest);
      FlattenThen(LineOf(cmd), Tree(rest, st.next));
      Associate(st.lines, [LineOf(cmd)], Flatten(Tree(rest, st.next)));
    case Loop(body, rest) =>
      TreeOfLoop(body, rest, st.next);
      EmitOpen(st);
      var st1 := Emit(st, '[');
      EmitText(st1, body);
      var st2 := EmitAll(st1, Text(body));
      EmitClose(st2);
      EmitText(Emit(st2, ']'), rest);
      EmitAround(st, body, rest);
      LoopLinesEmitted(st.lines, st.next, Tree(body, st.next + 1), Tree(rest, st.next + 1 + Loops(body)));
  }

  /** The lines written for a loop are those of its flattened tree. */
  lemma LoopLinesEmitted(lines: seq<Line>, id: nat, body: Code, rest: Code)
    ensures lines + Open(id) + Flatten(body) + Close(id) + Flatten(rest) == lines + Flatten(While(id, body, rest))
  {
    hide Flatten, Open, Close;
    FlattenWhile(While(id, body, rest));
    Reassociate5(lines, Open(id), Flatten(body), Close(id), Flatten(rest));
  }

  lemma {:induction false} TreeOfStep(cmd: Cmd, rest: Prog, n: nat)
    ensures Tree(Do(cmd, rest), n) == Then(LineOf(cmd), Tree(rest, n)) && Loops(Do(cmd, rest)) == Loops(rest)
  {
  }

  lemma {:induction false} TreeOfLoop(body: Prog, rest: Prog, n: nat)
    ensures Tree(Loop(body, rest), n) == While(n, Tree(body, n + 1), Tree(rest, n + 1 + Loops(body)))
    ensures Loops(Loop(body, rest)) == 1 + Loops(body) + Loops(rest)
  {
  }

  lemma TextOfStep(cmd: Cmd, rest: Prog)
    ensures Text(Do(cmd, rest)) == [Symbol(cmd)] + Text(rest)
  {
  }

  lemma EmitStep(st: Scan, cmd: Cmd)
    requires st.Scan?
    ensures Emit(st, Symbol(cmd)) == st.(lines := st.lines + [LineOf(cmd)])
  {
  }

  lemma EmitOpen(st: Scan)
    requires st.Scan?
    ensures Emit(st, '[') == Scan(st.lines + Open(st.next), st.next + 1, st.open + [st.next])
  {
  }

  lemma EmitClose(st: Scan)
    requires st.Scan? && st.open != []
    ensures Emit(st, ']') == Scan(st.lines + Close(st.open[|st.open| - 1]), st.next, st.open[..|st.open| - 1])
  {
  }

  /** Scanning the text of a loop: its bracket, its body, its other bracket, the rest. */
  lemma EmitAround(st: Scan, body: Prog, rest: Prog)
    ensures EmitAll(st, Text(Loop(body, rest)))
         == EmitAll(Emit(EmitAll(Emit(st, '['), Text(body)), ']'), Text(rest))
  {
    hide *;
    LoopText(body, rest);
    EmitOne(st, '[', Text(body) + ([']'] + Text(rest)));
    EmitTwo(Emit(st, '['), Text(body), [']'] + Text(rest));
    EmitOne(EmitAll(Emit(st, '['), Text(body)), ']', Text(rest));
  }

  lemma LoopText(body: Prog, rest: Prog)
    ensures Text(Loop(body, rest)) == ['['] + (Text(body) + ([']'] + Text(rest)))
  {
  }

  lemma EmitNothing(st: Scan)
    requires st.Scan?
    ensures EmitAll(st, Text(End)) == Scan(st.lines + Flatten(Tree(End, st.next)), st.next + Loops(End), st.open)
  {
    assert Tree(End, st.next) == Done;
    assert st.lines + [] == st.lines;
  }

  lemma FlattenThen(line: Line, rest: Code)
    ensures Flatten(Then(line, rest)) == [line] + Flatten(rest)
  {
  }

  lemma Reassociate5(a: seq<Line>, b: seq<Line>, c: seq<Line>, d: seq<Line>, e: seq<Line>)
    ensures a + b + c + d + e == a + (b + c + d + e)
  {
    Associate(a, b, c);
    Associate(a, b + c, d);
    Associate(a, b + c + d, e);
  }

  /** What the first stage writes for a balanced text. */
  function Unoptimised(src: string): seq<Line>
    requires Balanced(src)
  {
    PROLOGUE + Flatten(Tree(Program(src), 0)) + [HALT_LINE]
  }

  datatype Translation = Lines(lines: seq<Line>) | UnmatchedClose | UnmatchedOpen

  /** The scanning loop of `compile`. It throws iff the brackets do not match, and it says which
      kind is wrong; otherwise the text's program is laid out loop by loop. */
  method TranslateText(src: string) returns (r: Translation)
    ensures r.UnmatchedClose? <==> Dips(src)
    ensures r.UnmatchedOpen? <==> !Dips(src) && Depth(src) > 0
    ensures r.Lines? <==> Balanced(src)
    ensures r.Lines? ==> r.lines == Unoptimised(src)
  {
    var lines, numberOfPar, parStack := PROLOGUE, 0, [];
    ghost var start := Scan(PROLOGUE, 0, []);
    var i := 0;
    ScanDepth(start, src);
    assert src[..|src|] == src && src[0..] == src;
    while i < |src|
      invariant 0 <= i <= |src|
      invariant EmitAll(Scan(lines, numberOfPar, parStack), src[i..]) == EmitAll(start, src)
    {
      var c := src[i];
      assert src[i..][1..] == src[i + 1..];
      match c {
        case '[' =>
          var parId := numberOfPar;
          numberOfPar := numberOfPar + 1;
          parStack := parStack + [parId];
          lines := lines + [Mark(StartPar(parId)), TEST_ZERO, Ins(JE, [Ref(ClosePar(parId))])];
        case ']' =>
          if parStack == [] {
            StuckScan(src[i + 1..]);
            return UnmatchedClose;
          }
          var parId := parStack[|parStack| - 1];
          parStack := parStack[..|parStack| - 1];
          lines := lines + [Mark(ClosePar(parId)), TEST_ZERO, Ins(JNE, [Ref(StartPar(parId))])];
        case _ =>
          if IsCommand(c) {
            lines := lines + [LineOf(CommandOf(c))];
          }
      }
      i := i + 1;
    }
    if parStack != [] {
      return UnmatchedOpen;
    }
    EmitStripped(start, src);
    assert Depth(src) == 0;
    EmitText(start, Program(src));
    return Lines(lines + [HALT_LINE]);
  }
}
