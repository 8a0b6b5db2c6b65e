/** SPUSH, SPOP, CALL and RET over whole runs: they refine a stack of bytes that knows nothing of memory,
    stack pointers or limits. */
module Lifo {
  import opened Bytes
  import opened Isa
  import opened Vm
  import opened Stack
  import Heap

  /** What an instruction asks of the stack. */
  datatype StackOp = Pushes(bytes: seq<Byte>) | Pops(n: nat) | Leaves

  /** The abstract stack, its top first. None is an underflow. */
  function Apply(stack: seq<Byte>, op: StackOp): Option<seq<Byte>> {
    match op
    case Pushes(bytes) => Some(bytes + stack)
    case Pops(n) => if n <= |stack| then Some(stack[n..]) else None
    case Leaves => Some(stack)
  }

  function ApplyAll(stack: seq<Byte>, ops: seq<StackOp>): Option<seq<Byte>>
    decreases |ops|
  {
    if ops == [] then Some(stack)
    else
      match Apply(stack, ops[0])
      case None => None
      case Some(stack1) => ApplyAll(stack1, ops[1..])
  }

  /** Bytes that an SPUSH or SPOP moves, by the type byte of its operand: two for an address, a bracketed number and
      a bracketed label, one for a numeral, a register and a cell behind a register. */
  function Width(typ: Byte): nat { if typ in {2, 4, 5} then 2 else 1 }

  /** The operation of the next instruction. SPUSH pushes a value of one or two bytes, CALL the address
      behind it; SPOP pops as many bytes as its operand takes, RET an address. */
  function OpOf(s: State): StackOp {
    if !Live(s) || Next(s).None? then Leaves
    else
      var f := Next(s).value;
      match f.opcode
      case 0x81 =>
        (match ReadArg(Ready(s), f.args[0])
         case Err(_) => Leaves
         case Val(v) => Pushes(if Width(f.args[0].typ) == 1 then [v] else [0, v]))
      case 0xB1 => if f.args[0].typ == ADDRESS then Pushes([High(Ready(s).proc.pc), Low(Ready(s).proc.pc)]) else Leaves
      case 0x91 => Pops(Width(f.args[0].typ))
      case 0x20 => Pops(2)
      case _ => Leaves
  }

  /** The operations of `n` rounds. */
  function Trace(s: State, n: nat): seq<StackOp>
    decreases n
  {
    if n == 0 then [] else [OpOf(s)] + Trace(Step(s), n - 1)
  }

  /** The next instruction does not write into the used stack behind the stack's back: an SPOP stores
      outside what remains of it, other instructions leave its bytes alone. */
  ghost predicate Tame(s: State) {
    Live(s) && Next(s).Some? ==>
      var f := Next(s).value;
      if f.opcode == 0x91 then OutsideStack(Ready(s), f.args[0], s.proc.sp + Width(f.args[0].typ))
      else if StackOpcode(f.opcode) then true
      else
        && |Step(s).ram| == |s.ram|
        && (s.proc.sp <= StackTop(s) <= |s.ram| ==> Step(s).ram[s.proc.sp..StackTop(s)] == StackBytes(s))
  }

  ghost predicate TameRun(s: State, n: nat)
    decreases n
  {
    n > 0 ==> Tame(s) && TameRun(Step(s), n - 1)
  }

  /** The next instruction gets what the abstract stack has on top: SPOP the last byte of its operand's
      width for its destination, RET the return address. */
  ghost predicate Receives(s: State, stack: seq<Byte>) {
    Live(s) && Next(s).Some? ==>
      var f := Next(s).value;
      && (f.opcode == 0x91 ==>
            && Width(f.args[0].typ) <= |stack|
            && Content(Step(s), Resolve(Ready(s), f.args[0])) == Val(stack[Width(f.args[0].typ) - 1]))
      && (f.opcode == 0x20 ==> 2 <= |stack| && Step(s).proc.pc == Join(stack[0], stack[1]))
  }

  // ----- one round -----

  lemma StepDispatches(s: State)
    requires Live(s) && Next(s).Some?
    ensures var f := Next(s).value;
      |f.args| == Arity(f.opcode) && Step(s) == Dispatch(Ready(s), f)
    ensures !StackOpcode(Next(s).value.opcode) ==> OpOf(s) == Leaves
    ensures WellStacked(s) ==> WellStacked(Ready(s)) && StackBytes(Ready(s)) == StackBytes(s)
  {
    hide Fetch, Arity, Dispatch, Step;
    StepIs(s);
  }

  /** Only the four instructions report a stack error. */
  lemma OtherErrors(s: State, f: Fetched)
    requires s.status.Running? && |f.args| == Arity(f.opcode) && !StackOpcode(f.opcode)
    ensures Dispatch(s, f).status != Fault(StackOverflow) && Dispatch(s, f).status != Fault(StackUnderflow)
  {
    hide Assign, Deref, ReadArg, Combine, Heap.Halloc, Heap.Hfree;
    forall s1: State, arg, v | s1.status.Running? ensures NoStackError(Assign(s1, arg, v).status) { AssignErrorKinds(s1, arg, v); }
    forall arg ensures Benign(Deref(s, arg)) { DerefErrors(s, arg); }
    forall arg ensures Benign(ReadArg(s, arg)) { ReadErrors(s, arg); }
    forall op, dest, src ensures NoStackError(Combine(s, op, dest, src).status) { CombineErrors(s, op, dest, src); }
  }

  predicate NoStackError(status: Vm.Status) { status != Fault(StackOverflow) && status != Fault(StackUnderflow) }

  /** Operands that cannot be read. */
  predicate Benign(r: Read) { r.Err? ==> r.error == Undefined || r.error == UnknownType }

  lemma AssignErrorKinds(s: State, arg: RawArg, v: Byte)
    requires s.status.Running?
    ensures NoStackError(Assign(s, arg, v).status)
  {
    hide Resolve;
    ResolveValid(s, arg);
    ResolveErrors(s, arg);
  }

  lemma DerefErrors(s: State, arg: RawArg)
    ensures Benign(Deref(s, arg))
  {
    hide Resolve;
    ResolveErrors(s, arg);
  }

  lemma CombineErrors(s: State, op: Arith, dest: RawArg, src: RawArg)
    requires s.status.Running?
    ensures NoStackError(Combine(s, op, dest, src).status)
  {
    hide Assign, Deref, ReadArg;
    forall v ensures NoStackError(Assign(s, dest, v).status) { AssignErrorKinds(s, dest, v); }
    ReadErrors(s, src);
    DerefErrors(s, dest);
  }

  /** Stack errors come exactly where the abstract stack is empty or the space used up. */
  lemma StepErrors(s: State)
    requires WellStacked(s) && Live(s) && Next(s).Some?
    ensures Step(s).status == Fault(StackUnderflow) <==> Apply(StackBytes(s), OpOf(s)).None?
    ensures Step(s).status == Fault(StackOverflow) <==>
      OpOf(s).Pushes? && |StackBytes(s)| + |OpOf(s).bytes| > StackTop(s) - s.proc.stackLimit
  {
    hide Fetch, Step, Pop, PushBytes, Resolve, Push, Return, Call, StackBytes, WellStacked, ReadArg;
    StepDispatches(s);
    StepIs(s);
    var (s0, f) := (Ready(s), Next(s).value);
    if !StackOpcode(f.opcode) {
      hide Dispatch;
      OtherErrors(s0, f);
    } else if f.opcode == 0x91 {
      PopExact(s0, f.args[0]);
      PopErrors(s0, f.args[0]);
    } else if f.opcode == 0x81 {
      PushErrors(s0, f.args[0]);
    } else if f.opcode == 0xB1 {
      CallErrors(s0, f.args[0]);
    } else {
      ReturnErrors(s0);
    }
  }

  lemma PushErrors(s: State, arg: RawArg)
    requires WellStacked(s) && s.status.Running?
    ensures Push(s, arg).status != Fault(StackUnderflow)
    ensures Push(s, arg).status == Fault(StackOverflow) <==>
      ReadArg(s, arg).Val? && |StackBytes(s)| + StackWidth(arg) > StackTop(s) - s.proc.stackLimit
  {
    hide PushBytes, ReadArg;
    PushIs(s, arg);
    ReadErrors(s, arg);
    if ReadArg(s, arg).Val? {
      PushBytesExact(s, if StackWidth(arg) == 1 then [ReadArg(s, arg).v] else [0, ReadArg(s, arg).v]);
    }
  }

  lemma CallErrors(s: State, arg: RawArg)
    requires WellStacked(s) && s.status.Running?
    ensures Call(s, arg).status != Fault(StackUnderflow)
    ensures Call(s, arg).status == Fault(StackOverflow) <==>
      arg.typ == ADDRESS && |StackBytes(s)| + 2 > StackTop(s) - s.proc.stackLimit
  {
    hide PushBytes;
    PushBytesExact(s, [High(s.proc.pc), Low(s.proc.pc)]);
  }

  lemma ReturnErrors(s: State)
    requires WellStacked(s) && s.status.Running?
    ensures Return(s).status != Fault(StackOverflow)
    ensures Return(s).status == Fault(StackUnderflow) <==> |StackBytes(s)| < 2
  {
  }

  lemma PopErrors(s: State, arg: RawArg)
    requires s.status.Running?
    ensures Pop(s, arg).status != Fault(StackOverflow)
  {
    hide Resolve;
    ResolveErrors(s, arg);
  }

  lemma ReadErrors(s: State, arg: RawArg)
    ensures Benign(ReadArg(s, arg))
  {
    hide Resolve;
    ResolveErrors(s, arg);
  }

  /** One round that does not throw is one operation of the abstract stack. */
  lemma StepRefines(s: State)
    requires WellStacked(s) && Tame(s) && !Step(s).status.Fault?
    ensures WellStacked(Step(s)) && Apply(StackBytes(s), OpOf(s)) == Some(StackBytes(Step(s)))
    ensures Receives(s, StackBytes(s))
  {
    StepInRange(s);
    if Live(s) {
      StepFetches(s);
      StepDispatches(s);
      hide Step, Dispatch, Fetch, Arity, WellStacked, OutsideStack;
      match Next(s).value.opcode
      case 0x81 => PushStep(s);
      case 0xB1 => CallStep(s);
      case 0x91 => PopStep(s);
      case 0x20 => ReturnStep(s);
      case _ => QuietKeeps(Ready(s), Next(s).value);
    }
  }

  lemma StepFetches(s: State)
    requires Live(s) && !Step(s).status.Fault?
    ensures Next(s).Some?
  {
    hide Dispatch, Fetch, Arity;
  }

  lemma {:induction false} PushStep(s: State)
    requires WellStacked(s) && Live(s) && Next(s).Some? && Next(s).value.opcode == 0x81
    requires !Step(s).status.Fault? && WellStacked(Step(s))
    ensures Apply(StackBytes(s), OpOf(s)) == Some(StackBytes(Step(s)))
  {
    hide Fetch, Step, PushBytes, Push, ReadArg, StackBytes, WellStacked;
    StepDispatches(s);
    var (s0, arg) := (Ready(s), Next(s).value.args[0]);
    PushReads(s0, arg);
    PushExact(s0, arg);
  }

  lemma PushReads(s: State, arg: RawArg)
    requires !Push(s, arg).status.Fault?
    ensures ReadArg(s, arg).Val?
  {
    hide ReadArg, PushBytes;
  }

  lemma CallStep(s: State)
    requires WellStacked(s) && Live(s) && Next(s).Some? && Next(s).value.opcode == 0xB1
    requires !Step(s).status.Fault? && WellStacked(Step(s))
    ensures Apply(StackBytes(s), OpOf(s)) == Some(StackBytes(Step(s)))
  {
    StepDispatches(s);
    hide Fetch, Arity, Step, Call, StackBytes, WellStacked;
    CallPushes(Ready(s), Next(s).value.args[0]);
  }

  lemma CallPushes(s: State, arg: RawArg)
    requires WellStacked(s) && !Call(s, arg).status.Fault? && WellStacked(Call(s, arg))
    ensures arg.typ == ADDRESS
    ensures StackBytes(Call(s, arg)) == [High(s.proc.pc), Low(s.proc.pc)] + StackBytes(s)
  {
    hide PushBytes;
    if s.status.Fault? { PushKeepsFault(s, [High(s.proc.pc), Low(s.proc.pc)]); }
    PushBytesExact(s, [High(s.proc.pc), Low(s.proc.pc)]);
  }

  lemma PushKeepsFault(s: State, bytes: seq<Byte>)
    requires s.status.Fault?
    ensures PushBytes(s, bytes).status.Fault?
  {
  }

  lemma {:induction false} PopStep(s: State)
    requires WellStacked(s) && Live(s) && Next(s).Some? && Next(s).value.opcode == 0x91
    requires !Step(s).status.Fault? && WellStacked(Step(s))
    requires OutsideStack(Ready(s), Next(s).value.args[0], s.proc.sp + StackWidth(Next(s).value.args[0]))
    ensures Apply(StackBytes(s), OpOf(s)) == Some(StackBytes(Step(s)))
    ensures Receives(s, StackBytes(s))
  {
    hide Fetch, Step, Pop, Resolve, OutsideStack, Content;
    StepDispatches(s);
    PopExact(Ready(s), Next(s).value.args[0]);
  }

  lemma ReturnStep(s: State)
    requires WellStacked(s) && Live(s) && Next(s).Some? && Next(s).value.opcode == 0x20
    requires !Step(s).status.Fault? && WellStacked(Step(s))
    ensures Apply(StackBytes(s), OpOf(s)) == Some(StackBytes(Step(s)))
    ensures Receives(s, StackBytes(s))
  {
    hide Fetch, Arity, Step, Return;
    StepDispatches(s);
    ReturnIs(Ready(s));
  }

  lemma ReturnIs(s: State)
    requires WellStacked(s) && !Return(s).status.Fault?
    ensures var bytes := StackBytes(s);
      |bytes| >= 2 && Return(s).proc.pc == Join(bytes[0], bytes[1]) && StackBytes(Return(s)) == bytes[2..]
  {
  }

  // ----- runs -----

  /** Over every tame run that throws nothing, the bytes on the stack are those of the abstract stack. */
  lemma {:induction false} RunRefines(s: State, n: nat)
    requires WellStacked(s) && TameRun(s, n) && !Run(s, n).status.Fault?
    ensures WellStacked(Run(s, n)) && ApplyAll(StackBytes(s), Trace(s, n)) == Some(StackBytes(Run(s, n)))
    decreases n
  {
    hide Step, WellStacked, StackBytes, Tame, OpOf;
    if n > 0 {
      if Step(s).status.Fault? { RunStopped(Step(s), n - 1); }
      StepRefines(s);
      RunRefines(Step(s), n - 1);
      assert Trace(s, n)[1..] == Trace(Step(s), n - 1);
    }
  }

  lemma {:induction false} TameAt(s: State, n: nat, k: nat)
    requires TameRun(s, n) && k < n
    ensures TameRun(s, k) && Tame(Run(s, k))
    decreases k
  {
    hide Step, Tame;
    if k > 0 { TameAt(Step(s), n - 1, k - 1); }
  }

  lemma EarlierIsNoFault(s: State, n: nat, k: nat)
    requires k <= n && !Run(s, n).status.Fault?
    ensures !Run(s, k).status.Fault?
  {
    hide Step, Run;
    if Run(s, k).status.Fault? { RunFrozen(s, k, n); }
  }

  /** And whatever the run takes off the stack, at any point, is what the abstract stack has on top: the
      bytes last pushed and not yet popped. */
  lemma {:induction false} RunReceives(s: State, n: nat, k: nat)
    requires WellStacked(s) && TameRun(s, n) && !Run(s, n).status.Fault? && k < n
    ensures ApplyAll(StackBytes(s), Trace(s, k)).Some?
    ensures Receives(Run(s, k), ApplyAll(StackBytes(s), Trace(s, k)).value)
  {
    hide Step, Run, WellStacked, StackBytes, Tame, OpOf, Receives;
    TameAt(s, n, k);
    EarlierIsNoFault(s, n, k);
    EarlierIsNoFault(s, n, k + 1);
    RunRefines(s, k);
    RunLast(s, k);
    StepRefines(Run(s, k));
  }

  /** A run goes wrong on the stack exactly when the abstract stack has too few bytes to pop, or the
      space between limit and top has too few left to push. */
  lemma {:induction false} RunErrors(s: State, n: nat)
    requires WellStacked(s) && TameRun(s, n) && !Run(s, n).status.Fault?
    requires Live(Run(s, n)) && Next(Run(s, n)).Some?
    ensures ApplyAll(StackBytes(s), Trace(s, n)).Some?
    ensures var stack := ApplyAll(StackBytes(s), Trace(s, n)).value; var op := OpOf(Run(s, n));
      && (Run(s, n + 1).status == Fault(StackUnderflow) <==> Apply(stack, op).None?)
      && (Run(s, n + 1).status == Fault(StackOverflow) <==>
            op.Pushes? && |stack| + |op.bytes| > StackTop(s) - s.proc.stackLimit)
  {
    hide Step, Run, WellStacked, StackBytes, Tame, OpOf;
    RunRefines(s, n);
    RunLast(s, n);
    StepErrors(Run(s, n));
    RunKeepsLimits(s, n);
  }

  lemma {:induction false} RunKeepsLimits(s: State, n: nat)
    requires WellStacked(s) && !Run(s, n).status.Fault?
    ensures StackTop(Run(s, n)) == StackTop(s) && Run(s, n).proc.stackLimit == s.proc.stackLimit
    decreases n
  {
    hide Step, WellStacked, StackTop;
    if n > 0 {
      if Step(s).status.Fault? { RunStopped(Step(s), n - 1); }
      StepInRange(s);
      RunKeepsLimits(Step(s), n - 1);
    }
  }
}
