/** What the eight characters mean, from the text to the tape and the streams, spelled out. */
module Commands {
  import opened Bytes
  import opened Brainfuck
  import opened Source
  import opened Asm
  import opened CodeTrees
  import opened Translate

  // ----- the line for each character -----

  /** What the scan appends for each command character. */
  lemma {:induction false} CharacterLines(st: Scan)
    requires st.Scan?
    ensures Emit(st, '+').lines == st.lines + [Ins(ADD, [At(A), Num(1)])]
    ensures Emit(st, '-').lines == st.lines + [Ins(SUB, [At(A), Num(1)])]
    ensures Emit(st, '>').lines == st.lines + [Ins(ADD, [Direct(A), Num(1)])]
    ensures Emit(st, '<').lines == st.lines + [Ins(SUB, [Direct(A), Num(1)])]
    ensures Emit(st, '.').lines == st.lines + [Ins(PRINT, [At(A)])]
    ensures Emit(st, ',').lines == st.lines + [Ins(INPUT, [At(A)])]
  {
  }

  /** They change nothing else, and every character that is none of the eight is a comment. */
  lemma {:induction false} OtherCharacters(st: Scan, c: char)
    requires st.Scan?
    ensures c in ['+', '-', '<', '>', '.', ','] ==>
      Emit(st, c).Scan? && Emit(st, c).next == st.next && Emit(st, c).open == st.open
    ensures c !in ['+', '-', '<', '>', '.', ',', '[', ']'] ==> Emit(st, c) == st
  {
  }

  /** What it does at brackets: numbered labels around a test of the current cell, and a stack of numbers. */
  lemma {:induction false} BracketLines(st: Scan)
    requires st.Scan?
    ensures Emit(st, '[') == Scan(
      st.lines + [Mark(StartPar(st.next)), Ins(CMP, [At(A), Num(0)]), Ins(JE, [Ref(ClosePar(st.next))])],
      st.next + 1, st.open + [st.next])
    ensures st.open == [] ==> Emit(st, ']') == Unmatched
    ensures st.open != [] ==>
      var id := st.open[|st.open| - 1];
      Emit(st, ']') == Scan(
        st.lines + [Mark(ClosePar(id)), Ins(CMP, [At(A), Num(0)]), Ins(JNE, [Ref(StartPar(id))])],
        st.next, st.open[..|st.open| - 1])
  {
  }

  /** The nesting depth counts brackets. */
  lemma {:induction false} DepthCounts(s: string)
    ensures Depth(s) == multiset(s)['['] as int - multiset(s)[']'] as int
  {
    if s != [] {
      DepthCounts(s[1..]);
      assert s == [s[0]] + s[1..];
    }
  }

  // ----- programs of one character -----

  lemma OneCommand(c: char, cmd: Cmd)
    requires c == Symbol(cmd)
    ensures Balanced([c]) && Program([c]) == Do(cmd, End)
  {
    ProgramOfText(Do(cmd, End));
    assert Text(End) == "" && Text(Do(cmd, End)) == [c] + [];
    assert [c] + [] == [c];
  }

  /** A text of one command ends at once, in exactly one world. */
  lemma OneRun(cmd: Cmd, w: World)
    ensures forall fuel: nat :: Eval(fuel, Do(cmd, End), w) == Some(Perform(cmd, w))
  {
  }

  lemma SymbolsAre()
    ensures Symbol(Inc) == '+' && Symbol(Dec) == '-' && Symbol(Right) == '>' && Symbol(Left) == '<'
    ensures Symbol(Out) == '.' && Symbol(In) == ','
  {
  }

  /** Addition on a byte. */
  function Plus(x: Byte, n: int): Byte { (x + n) % 256 }

  /** The four texts of one step, run from any world: what each changes, and that it changes nothing else. */
  lemma {:induction false} OneStep(fuel: nat, w: World)
    ensures Balanced("+") && Eval(fuel, Program("+"), w) == Some(w.(cells := w.cells[w.a := Plus(w.cells[w.a], 1)]))
    ensures Balanced("-") && Eval(fuel, Program("-"), w) == Some(w.(cells := w.cells[w.a := Plus(w.cells[w.a], -1)]))
    ensures Balanced(">") && Eval(fuel, Program(">"), w) == Some(w.(a := Plus(w.a, 1)))
    ensures Balanced("<") && Eval(fuel, Program("<"), w) == Some(w.(a := Plus(w.a, -1)))
  {
    hide Program, Balanced, Eval, Symbol;
    SymbolsAre();
    OneCommand('+', Inc);
    OneCommand('-', Dec);
    OneCommand('>', Right);
    OneCommand('<', Left);
    OneRun(Inc, w);
    OneRun(Dec, w);
    OneRun(Right, w);
    OneRun(Left, w);
  }

  /** And the two that print and read. */
  lemma {:induction false} OneTransfer(fuel: nat, w: World)
    ensures Balanced(".") && Eval(fuel, Program("."), w) == Some(w.(output := w.output + [w.cells[w.a]]))
    ensures Balanced(",")
    ensures w.input != [] ==>
      Eval(fuel, Program(","), w) == Some(w.(cells := w.cells[w.a := w.input[0] % 256], input := w.input[1..]))
    ensures w.input == [] ==> Eval(fuel, Program(","), w) == Some(w.(cells := w.cells[w.a := 0]))
  {
    hide Program, Balanced, Eval, Symbol;
    SymbolsAre();
    OneCommand('.', Out);
    OneCommand(',', In);
    OneRun(Out, w);
    OneRun(In, w);
  }

  // ----- how input is used up -----

  function Min(m: nat, n: nat): nat { if m < n then m else n }

  /** The `k`-th number of `input` as a cell, and 0 behind the end. */
  function Number(input: seq<int>, k: nat): Byte { if k < |input| then input[k] % 256 else 0 }

  /** The cells that the reading commands of a run store, in the order in which they are executed. */
  function Stored(fuel: nat, p: Prog, w: World): seq<Byte>
    decreases fuel, p
  {
    match p
    case End => []
    case Do(cmd, rest) =>
      var w1 := Perform(cmd, w);
      (if cmd.In? then [w1.cells[w.a]] else []) + Stored(fuel, rest, w1)
    case Loop(body, rest) =>
      if Here(w) == 0 then Stored(fuel, rest, w)
      else if fuel == 0 then []
      else
        Stored(fuel - 1, body, w) +
        match Eval(fuel - 1, body, w)
        case None => []
        case Some(w1) => Stored(fuel - 1, p, w1)
  }

  /** Over every run, finished or cut off: the `k`-th reading command stores the `k`-th number of the input modulo
      256, or 0 when there is none. A run that ends has used up as many numbers as it has executed reading
      commands, or all there were. */
  lemma {:induction false} InputInOrder(fuel: nat, p: Prog, w: World)
    ensures forall k :: 0 <= k < |Stored(fuel, p, w)| ==> Stored(fuel, p, w)[k] == Number(w.input, k)
    ensures Eval(fuel, p, w).Some? ==>
      Eval(fuel, p, w).value.input == w.input[Min(|Stored(fuel, p, w)|, |w.input|)..]
    decreases fuel, p
  {
    match p
    case End =>
    case Do(cmd, rest) =>
      var w1 := Perform(cmd, w);
      InputInOrder(fuel, rest, w1);
      Later(w.input, if cmd.In? then [w1.cells[w.a]] else [], w1.input, Stored(fuel, rest, w1));
    case Loop(body, rest) =>
      if Here(w) == 0 {
        InputInOrder(fuel, rest, w);
      } else if fuel > 0 {
        InputInOrder(fuel - 1, body, w);
        var r := Eval(fuel - 1, body, w);
        if r.Some? {
          InputInOrder(fuel - 1, p, r.value);
          Later(w.input, Stored(fuel - 1, body, w), r.value.input, Stored(fuel - 1, p, r.value));
        }
      }
  }

  /** What is stored in order from an input and then from what is left of it, is stored in order. */
  lemma Later(input: seq<int>, a: seq<Byte>, rest: seq<int>, b: seq<Byte>)
    requires forall k :: 0 <= k < |a| ==> a[k] == Number(input, k)
    requires rest == input[Min(|a|, |input|)..]
    requires forall k :: 0 <= k < |b| ==> b[k] == Number(rest, k)
    ensures forall k :: 0 <= k < |a + b| ==> (a + b)[k] == Number(input, k)
    ensures rest[Min(|b|, |rest|)..] == input[Min(|a + b|, |input|)..]
  {
  }

  // ----- echo -----

  /** `n` times ",.". */
  function Echo(n: nat): Prog { if n == 0 then End else Do(In, Do(Out, Echo(n - 1))) }

  /** The first `n` numbers as cells. */
  function FirstNumbers(input: seq<int>, n: nat): (r: seq<Byte>)
    ensures |r| == n && forall k :: 0 <= k < n ==> r[k] == Number(input, k)
  {
    seq(n, k requires 0 <= k < n => Number(input, k))
  }

  /** It prints the first n numbers modulo 256 and leaves the others unread. */
  lemma {:induction false} EchoPrints(n: nat, w: World, fuel: nat)
    ensures Eval(fuel, Echo(n), w).Some?
    ensures var w1 := Eval(fuel, Echo(n), w).value;
      w1.output == w.output + FirstNumbers(w.input, n) && w1.input == w.input[Min(n, |w.input|)..] && w1.a == w.a
    decreases n
  {
    if n == 0 {
      assert w.output + [] == w.output;
    } else {
      var w1 := Perform(Out, Perform(In, w));
      EchoPrints(n - 1, w1, fuel);
      assert w1.output == w.output + [Number(w.input, 0)];
      assert FirstNumbers(w.input, n) == [Number(w.input, 0)] + FirstNumbers(w1.input, n - 1);
    }
  }
}
