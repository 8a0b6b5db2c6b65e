/** Input and output over whole runs of the byte machine. */
module Streams {
  import opened Bytes
  import opened Isa
  import opened Vm
  import opened Stack
  import Brainfuck
  import Commands
  import Heap

  // ----- one instruction -----

  /** Everything but the two streams may differ. */
  predicate SameStreams(s: State, t: State) { t.input == s.input && t.output == s.output }

  lemma AssignStreams(s: State, arg: RawArg, v: Byte)
    ensures SameStreams(s, Assign(s, arg, v))
  {
    hide Resolve;
    ResolveValid(s, arg);
  }

  lemma CombineStreams(s: State, op: Arith, dest: RawArg, src: RawArg)
    ensures SameStreams(s, Combine(s, op, dest, src))
  {
    hide Assign, Deref, ReadArg;
    forall v ensures SameStreams(s, Assign(s, dest, v)) { AssignStreams(s, dest, v); }
  }

  lemma HeapStreams(s: State, place: RawArg, arg: RawArg)
    ensures SameStreams(s, Alloc(s, place, arg)) && SameStreams(s, Release(s, arg))
  {
    hide Assign, Deref, Heap.Halloc, Heap.Hfree;
    forall v, ram1 ensures SameStreams(s, Assign(s.(ram := ram1), place, v)) {
      AssignStreams(s.(ram := ram1), place, v);
    }
  }

  lemma PushStreams(s: State, bytes: seq<Byte>)
    ensures SameStreams(s, PushBytes(s, bytes))
  {
  }

  lemma StackStreams(s: State, arg: RawArg)
    ensures SameStreams(s, Push(s, arg)) && SameStreams(s, Call(s, arg)) && SameStreams(s, Return(s))
  {
    hide PushBytes, ReadArg, Join;
    forall bytes ensures SameStreams(s, PushBytes(s, bytes)) { PushStreams(s, bytes); }
  }

  lemma PopStreams(s: State, arg: RawArg)
    ensures SameStreams(s, Pop(s, arg))
  {
    hide Assign;
    forall v ensures SameStreams(s, Assign(s, arg, v)) { AssignStreams(s, arg, v); }
  }

  /** Opcodes other than INPUT, PRINT and PRINTFLUSH touch no stream. */
  lemma {:induction false} OthersKeepStreams(s: State, f: Fetched)
    requires |f.args| == Arity(f.opcode) && f.opcode !in {0x01, 0x10, 0x21}
    ensures SameStreams(s, Dispatch(s, f))
  {
    hide Assign, ReadArg, Deref, Combine, Alloc, Release, Push, Pop, Call, Return;
    if |f.args| > 0 {
      HeapStreams(s, f.args[0], f.args[|f.args| - 1]);
    }
    forall arg ensures SameStreams(s, Push(s, arg)) && SameStreams(s, Pop(s, arg)) && SameStreams(s, Call(s, arg)) {
      StackStreams(s, arg);
      PopStreams(s, arg);
    }
    StackStreams(s, RawArg(0, 0));
    if |f.args| == 2 {
      forall op ensures SameStreams(s, Combine(s, op, f.args[0], f.args[1])) { CombineStreams(s, op, f.args[0], f.args[1]); }
      forall v ensures SameStreams(s, Assign(s, f.args[0], v)) { AssignStreams(s, f.args[0], v); }
    }
  }

  /** INPUT stores the first number modulo 256, or 0 when there is none, and uses the number up even when its operand
      is no place to store to. */
  lemma InputIs(s: State, arg: RawArg)
    ensures Dispatch(s, Fetched(0x21, [arg])) ==
      var s1 := if s.input == [] then s else s.(input := s.input[1..]);
      Assign(s1, arg, if s.input == [] then 0 else s.input[0] % 256)
  {
    hide Assign;
  }

  lemma PrintStreams(s: State, f: Fetched)
    requires |f.args| == Arity(f.opcode) && (f.opcode == 0x01 || f.opcode == 0x10)
    ensures Dispatch(s, f).input == s.input
  {
    hide ReadArg;
  }

  // ----- one round -----

  /** The next instruction is an INPUT. */
  predicate Reads(s: State) { Live(s) && Next(s).Some? && Next(s).value.opcode == 0x21 }

  /** What one round leaves of the input. */
  lemma RoundInput(s: State)
    ensures Step(s).input == s.input[Commands.Min(if Reads(s) then 1 else 0, |s.input|)..]
  {
    hide Dispatch, Fetch, Arity, Step, Assign;
    if Live(s) && Next(s).Some? {
      StepIs(s);
      var f := Next(s).value;
      if f.opcode == 0x21 {
        RoundStores(s);
      } else if f.opcode == 0x01 || f.opcode == 0x10 {
        PrintStreams(Ready(s), f);
      } else {
        OthersKeepStreams(Ready(s), f);
      }
    } else {
      IdleStep(s);
    }
  }

  lemma IdleStep(s: State)
    requires !Live(s) || Next(s).None?
    ensures SameStreams(s, Step(s))
  {
    hide Dispatch, Fetch;
  }

  /** An INPUT round stores the first number and changes nothing else but the input and the counter. */
  lemma RoundStores(s: State)
    requires Reads(s)
    ensures |Next(s).value.args| == 1
    ensures var s1 := if s.input == [] then Ready(s) else Ready(s).(input := s.input[1..]);
      Step(s) == Assign(s1, Next(s).value.args[0], Commands.Number(s.input, 0))
    ensures Step(s).input == s.input[Commands.Min(1, |s.input|)..]
  {
    hide Dispatch, Fetch, Step, Assign;
    StepIs(s);
    var f := Next(s).value;
    assert f == Fetched(0x21, [f.args[0]]);
    InputIs(Ready(s), f.args[0]);
    var s1 := if s.input == [] then Ready(s) else Ready(s).(input := s.input[1..]);
    AssignStreams(s1, f.args[0], Commands.Number(s.input, 0));
  }

  // ----- whole runs -----

  /** How many of the first `n` rounds are INPUTs. */
  function ReadsIn(s: State, n: nat): nat
    decreases n
  {
    if n == 0 then 0 else (if Reads(s) then 1 else 0) + ReadsIn(Step(s), n - 1)
  }

  /** After any run, exactly as many numbers are gone as INPUTs have been executed, from the front, or all. */
  lemma {:induction false} InputUsed(s: State, n: nat)
    ensures Run(s, n).input == s.input[Commands.Min(ReadsIn(s, n), |s.input|)..]
    decreases n
  {
    hide Step, Reads;
    if n > 0 {
      RoundInput(s);
      InputUsed(Step(s), n - 1);
    }
  }

  /** The INPUT that comes after `k` others stores number `k` of the input modulo 256 in its operand, and 0 behind the
      end of the input. */
  lemma {:induction false} KthRead(s: State, n: nat)
    requires Reads(Run(s, n))
    ensures var t := Run(s, n); var k := ReadsIn(s, n);
      && |Next(t).value.args| == 1
      && var arg := Next(t).value.args[0];
         var rest := s.input[Commands.Min(k + 1, |s.input|)..];
         Run(s, n + 1) == Assign(Ready(t).(input := rest), arg, if k < |s.input| then s.input[k] % 256 else 0)
  {
    hide Step, Run, Assign, Next, Fetch, ReadsIn;
    InputUsed(s, n);
    RunLast(s, n);
    var t := Run(s, n);
    var k := ReadsIn(s, n);
    RoundStores(t);
    if k < |s.input| {
      assert t.input[0] == s.input[k] && t.input[1..] == s.input[k + 1..];
    } else {
      assert Ready(t) == Ready(t).(input := s.input[Commands.Min(k + 1, |s.input|)..]);
    }
  }

  /** With a destination, that number is what the destination holds behind the round. */
  lemma AssignHolds(s: State, arg: RawArg, v: Byte)
    requires !Resolve(s, arg).NoLoc?
    ensures Content(Assign(s, arg, v), Resolve(s, arg)) == Val(v)
  {
    hide Resolve;
    ResolveValid(s, arg);
  }

  // ----- output -----

  /** What the next round prints. */
  function Prints(s: State): seq<Byte> {
    if !Live(s) || Next(s).None? then []
    else if Next(s).value.opcode == 0x10 then [10]
    else if Next(s).value.opcode == 0x01 then
      match ReadArg(Ready(s), Next(s).value.args[0])
      case Err(_) => []
      case Val(v) => [v]
    else []
  }

  function PrintedIn(s: State, n: nat): seq<Byte>
    decreases n
  {
    if n == 0 then [] else Prints(s) + PrintedIn(Step(s), n - 1)
  }

  lemma RoundPrints(s: State)
    ensures Step(s).output == s.output + Prints(s)
  {
    hide Dispatch, Fetch, Step, ReadArg, Assign;
    if Live(s) && Next(s).Some? {
      StepIs(s);
      var f := Next(s).value;
      if f.opcode == 0x21 {
        InputPrintsNothing(s);
      } else if f.opcode == 0x01 || f.opcode == 0x10 {
        PrintAppends(Ready(s), f);
      } else {
        OthersKeepStreams(Ready(s), f);
      }
    } else {
      IdleStep(s);
    }
  }

  lemma InputPrintsNothing(s: State)
    requires Reads(s)
    ensures Step(s).output == s.output
  {
    hide Fetch, Step, Assign;
    RoundStores(s);
    var s1 := if s.input == [] then Ready(s) else Ready(s).(input := s.input[1..]);
    AssignStreams(s1, Next(s).value.args[0], Commands.Number(s.input, 0));
  }

  lemma PrintAppends(s: State, f: Fetched)
    requires |f.args| == Arity(f.opcode) && (f.opcode == 0x01 || f.opcode == 0x10)
    ensures f.opcode == 0x10 ==> Dispatch(s, f).output == s.output + [10]
    ensures f.opcode == 0x01 ==>
      var r := ReadArg(s, f.args[0]);
      Dispatch(s, f).output == s.output + (if r.Val? then [r.v] else [])
  {
    hide ReadArg;
  }

  /** Output is never taken back: a run appends what its PRINT and PRINTFLUSH rounds print, in order. */
  lemma {:induction false} OutputGrows(s: State, n: nat)
    ensures Run(s, n).output == s.output + PrintedIn(s, n)
    decreases n
  {
    hide Step, Prints;
    if n > 0 {
      RoundPrints(s);
      OutputGrows(Step(s), n - 1);
      Associate(s.output, Prints(s), PrintedIn(Step(s), n - 1));
    } else {
      assert s.output + [] == s.output;
    }
  }
}
