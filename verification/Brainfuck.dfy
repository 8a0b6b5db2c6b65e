/** The reference interpreter: Brainfuck on the tape that the compiler really provides,
    a ring of 256 byte cells, because the data pointer is the 8-bit register A. */
module Brainfuck {
  import opened Bytes

  type Ring = s: seq<Byte> | |s| == 256 witness seq(256, _ => 0)

  /** Everything a program can observe. `input` holds the numbers not yet read. */
  datatype World = World(cells: Ring, a: Byte, input: seq<int>, output: seq<Byte>)

  datatype Cmd = Right | Left | Inc | Dec | Out | In

  datatype Prog = End | Do(cmd: Cmd, rest: Prog) | Loop(body: Prog, rest: Prog)

  /** What `std::cin >> tmp` leaves in `tmp`: the next number, or 0 at the end of the input. */
  function NextInput(input: seq<int>): Byte {
    if input == [] then 0 else Wrap(input[0])
  }

  function RestInput(input: seq<int>): seq<int> {
    if input == [] then [] else input[1..]
  }

  /** The cell under the data pointer. */
  function Here(w: World): Byte { w.cells[w.a] }

  function Perform(cmd: Cmd, w: World): World {
    match cmd
    case Right => w.(a := Wrap(w.a + 1))
    case Left => w.(a := Wrap(w.a - 1))
    case Inc => w.(cells := w.cells[w.a := Wrap(Here(w) + 1)])
    case Dec => w.(cells := w.cells[w.a := Wrap(Here(w) - 1)])
    case Out => w.(output := w.output + [Here(w)])
    case In => w.(cells := w.cells[w.a := NextInput(w.input)], input := RestInput(w.input))
  }

  /** Runs `p`, entering loop bodies at most `fuel` times on any path; None when that is not enough. */
  function Eval(fuel: nat, p: Prog, w: World): Option<World>
    decreases fuel, p
  {
    match p
    case End => Some(w)
    case Do(cmd, rest) => Eval(fuel, rest, Perform(cmd, w))
    case Loop(body, rest) =>
      if Here(w) == 0 then Eval(fuel, rest, w)
      else if fuel == 0 then None
      else
        match Eval(fuel - 1, body, w)
        case None => None
        case Some(w1) => Eval(fuel - 1, p, w1)
  }

  /** `p` started in `w` stops in `w1`. */
  ghost predicate Terminates(p: Prog, w: World, w1: World) {
    exists fuel: nat :: Eval(fuel, p, w) == Some(w1)
  }

  lemma {:induction false} EvalMonotone(fuel: nat, more: nat, p: Prog, w: World)
    requires fuel <= more
    requires Eval(fuel, p, w).Some?
    ensures Eval(more, p, w) == Eval(fuel, p, w)
    decreases fuel, p
  {
    match p
    case End =>
    case Do(cmd, rest) => EvalMonotone(fuel, more, rest, Perform(cmd, w));
    case Loop(body, rest) =>
      if Here(w) == 0 {
        EvalMonotone(fuel, more, rest, w);
      } else {
        EvalMonotone(fuel - 1, more - 1, body, w);
        EvalMonotone(fuel - 1, more - 1, p, Eval(fuel - 1, body, w).value);
      }
  }

  /** The reference semantics is deterministic. */
  lemma {:induction false} TerminatesOnce(p: Prog, w: World, w1: World, w2: World)
    requires Terminates(p, w, w1) && Terminates(p, w, w2)
    ensures w1 == w2
  {
    var f1: nat :| Eval(f1, p, w) == Some(w1);
    var f2: nat :| Eval(f2, p, w) == Some(w2);
    EvalMonotone(f1, f1 + f2, p, w);
    EvalMonotone(f2, f1 + f2, p, w);
  }
}
