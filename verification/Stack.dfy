/** Stack discipline of SPUSH, SPOP, CALL and RET. */
module Stack {
  import opened Bytes
  import opened Isa
  import opened Vm
  import opened Asm
  import opened Assembler
  import Brainfuck
  import FreeList
  import Heap
  import Loader

  /** The stack pointer is between its limit and the top of the process. */
  ghost predicate WellStacked(s: State) {
    && 2 <= s.proc.stackLimit <= s.proc.sp <= StackTop(s) <= |s.ram|
    && StackTop(s) < 0x1_0000
  }

  /** The bytes on the stack, the last one pushed first. */
  function StackBytes(s: State): seq<Byte>
    requires s.proc.sp <= StackTop(s) <= |s.ram|
  {
    s.ram[s.proc.sp..StackTop(s)]
  }

  /** A loaded process starts with an empty stack. */
  lemma LayoutIsStacked(s: State, base: Word, size: nat, entry: Word)
    requires s.proc == Loader.Layout(base, size, entry) && |s.ram| == FreeList.RAM_SIZE
    requires base + size + Loader.HEAP_SIZE + Loader.STACK_SIZE <= FreeList.MANAGED
    ensures WellStacked(s) && StackBytes(s) == []
  {
    Loader.LayoutExact(base, size, entry);
  }

  // ----- push and pop of bytes -----

  /** PushBytes puts its bytes on top and changes nothing else in memory; it overflows iff they do not fit. */
  lemma PushBytesExact(s: State, bytes: seq<Byte>)
    requires WellStacked(s) && !s.status.Fault? && |bytes| <= 2
    ensures var s1 := PushBytes(s, bytes);
      && (s1.status == Fault(StackOverflow) <==> s.proc.sp < s.proc.stackLimit + |bytes|)
      && (s1.status.Fault? ==> s1.status == Fault(StackOverflow))
      && (!s1.status.Fault? ==>
            && WellStacked(s1) && StackBytes(s1) == bytes + StackBytes(s)
            && s1.ram[..s1.proc.sp] == s.ram[..s1.proc.sp] && s1.ram[StackTop(s)..] == s.ram[StackTop(s)..]
            && s1 == s.(ram := s1.ram, proc := s.proc.(sp := s.proc.sp - |bytes|)))
  {
    hide PushBytes;
    var sp := s.proc.sp - |bytes|;
    Loader.Untruncated(sp);
    Overwritten(s.ram, sp, bytes, StackTop(s));
    PushBytesIs(s, bytes, sp);
  }

  lemma PushBytesIs(s: State, bytes: seq<Byte>, sp: Word)
    requires sp == Wrap16(s.proc.sp - |bytes|)
    ensures sp < s.proc.stackLimit ==> PushBytes(s, bytes) == Throw(WithSp(s, sp), StackOverflow)
    ensures s.proc.stackLimit <= sp && sp + |bytes| <= |s.ram| ==>
      PushBytes(s, bytes) == WithSp(s, sp).(ram := s.ram[..sp] + bytes + s.ram[sp + |bytes|..])
  {
  }

  /** Bytes written right below `ram[sp..top]`. */
  lemma Overwritten(ram: seq<Byte>, at: nat, bytes: seq<Byte>, top: nat)
    requires at + |bytes| <= top <= |ram|
    ensures var ram1 := ram[..at] + bytes + ram[at + |bytes|..];
      && |ram1| == |ram| && ram1[at..top] == bytes + ram[at + |bytes|..top]
      && ram1[..at] == ram[..at] && ram1[top..] == ram[top..]
  {
  }

  /** What is pushed for a cell: two bytes with a zero high byte for an address, a bracketed number and a bracketed
      label, because every operand is read as a cell; one byte for a numeral, a register and a cell behind one. */
  lemma PushExact(s: State, arg: RawArg)
    requires WellStacked(s) && !s.status.Fault? && ReadArg(s, arg).Val?
    ensures var v := ReadArg(s, arg).v; var s1 := Push(s, arg);
      var bytes := if arg.typ == 2 || arg.typ == 4 || arg.typ == 5 then [0, v] else [v];
      && (s1.status == Fault(StackOverflow) <==> s.proc.sp < s.proc.stackLimit + |bytes|)
      && (!s1.status.Fault? ==>
            && WellStacked(s1) && StackBytes(s1) == bytes + StackBytes(s)
            && s1.ram[..s1.proc.sp] == s.ram[..s1.proc.sp] && s1.ram[StackTop(s)..] == s.ram[StackTop(s)..]
            && s1 == s.(ram := s1.ram, proc := s.proc.(sp := s.proc.sp - |bytes|)))
  {
    hide Push, PushBytes, ReadArg, StackBytes, WellStacked;
    PushIs(s, arg);
    PushBytesExact(s, if StackWidth(arg) == 1 then [ReadArg(s, arg).v] else [0, ReadArg(s, arg).v]);
  }

  lemma PushIs(s: State, arg: RawArg)
    ensures Push(s, arg) == match ReadArg(s, arg)
      case Err(e) => Throw(s, e)
      case Val(v) => PushBytes(s, if StackWidth(arg) == 1 then [v] else [0, v])
  {
  }

  /** A destination that leaves the stack bytes from `from` to the top alone. */
  predicate OutsideStack(s: State, arg: RawArg, from: nat) {
    match Resolve(s, arg)
    case RegAt(_) => true
    case CellAt(addr) => addr < from || addr >= StackTop(s)
    case NoLoc(_) => false
  }

  /** SPOP takes two bytes for an address, a bracketed number and a bracketed label, and one for a register and a cell
      behind one. It underflows iff the stack holds fewer; otherwise it takes exactly them off, and its destination
      gets the last one of them, the low byte of what was pushed. */
  lemma PopExact(s: State, arg: RawArg)
    requires WellStacked(s) && !s.status.Fault?
    ensures var n := if arg.typ == 2 || arg.typ == 4 || arg.typ == 5 then 2 else 1;
      && (Pop(s, arg).status == Fault(StackUnderflow) <==> |StackBytes(s)| < n)
      && (|StackBytes(s)| >= n && OutsideStack(s, arg, s.proc.sp + n) ==>
            var s1 := Pop(s, arg);
            && !s1.status.Fault? && WellStacked(s1)
            && StackBytes(s1) == StackBytes(s)[n..]
            && s1.proc == s.proc.(sp := s.proc.sp + n)
            && Content(s1, Resolve(s, arg)) == Val(StackBytes(s)[n - 1]))
  {
    PopUnderflows(s, arg);
    hide Pop, StackBytes, WellStacked, OutsideStack;
    if |StackBytes(s)| >= StackWidth(arg) && OutsideStack(s, arg, s.proc.sp + StackWidth(arg)) {
      PopTakes(s, arg);
    }
  }

  lemma PopUnderflows(s: State, arg: RawArg)
    requires WellStacked(s) && !s.status.Fault?
    ensures Pop(s, arg).status == Fault(StackUnderflow) <==> |StackBytes(s)| < StackWidth(arg)
  {
    hide Assign;
    var n := StackWidth(arg);
    if |StackBytes(s)| >= n { AssignErrors(s, arg, s.ram[s.proc.sp + n - 1]); }
  }

  lemma PopTakes(s: State, arg: RawArg)
    requires WellStacked(s) && !s.status.Fault?
    requires |StackBytes(s)| >= StackWidth(arg) && OutsideStack(s, arg, s.proc.sp + StackWidth(arg))
    ensures var s1 := Pop(s, arg);
      && !s1.status.Fault? && WellStacked(s1)
      && StackBytes(s1) == StackBytes(s)[StackWidth(arg)..]
      && s1.proc == s.proc.(sp := s.proc.sp + StackWidth(arg))
      && Content(s1, Resolve(s, arg)) == Val(StackBytes(s)[StackWidth(arg) - 1])
  {
    var n := StackWidth(arg);
    var v := s.ram[s.proc.sp + n - 1];
    PopIs(s, arg);
    AssignOutside(s, arg, v, s.proc.sp + n);
    Loader.Untruncated(s.proc.sp + n);
    TakenOff(s, Assign(s, arg, v), n, Resolve(s, arg));
    hide *;
  }

  /** Moving the stack pointer up over `n` bytes. */
  lemma TakenOff(s: State, s1: State, n: nat, loc: Loc)
    requires WellStacked(s) && 0 < n <= |StackBytes(s)|
    requires s1.proc == s.proc && |s1.ram| == |s.ram|
    requires s1.ram[s.proc.sp + n..StackTop(s)] == s.ram[s.proc.sp + n..StackTop(s)]
    requires Content(s1, loc) == Val(s.ram[s.proc.sp + n - 1])
    ensures var s2 := WithSp(s1, s.proc.sp + n);
      && WellStacked(s2) && StackBytes(s2) == StackBytes(s)[n..]
      && s2.proc == s.proc.(sp := s.proc.sp + n) && Content(s2, loc) == Val(StackBytes(s)[n - 1])
  {
    hide Content;
    DropSlice(s.ram, s.proc.sp, n, StackTop(s));
    ContentStays(s1, s.proc.sp + n, loc);
  }

  lemma ContentStays(s: State, sp: Word, loc: Loc)
    ensures Content(WithSp(s, sp), loc) == Content(s, loc)
  {
  }

  lemma DropSlice(ram: seq<Byte>, low: nat, n: nat, high: nat)
    requires low + n <= high <= |ram|
    ensures ram[low..high][n..] == ram[low + n..high]
  {
  }

  lemma PopIs(s: State, arg: RawArg)
    requires s.proc.sp + StackWidth(arg) <= StackTop(s) <= |s.ram|
    ensures var s1 := Assign(s, arg, s.ram[s.proc.sp + StackWidth(arg) - 1]);
      Pop(s, arg) == if s1.status.Fault? then s1 else WithSp(s1, Wrap16(s.proc.sp + StackWidth(arg)))
  {
  }

  lemma AssignErrors(s: State, arg: RawArg, v: Byte)
    requires !s.status.Fault?
    ensures Assign(s, arg, v).status != Fault(StackUnderflow)
  {
    hide Resolve;
    ResolveErrors(s, arg);
  }

  lemma AssignOutside(s: State, arg: RawArg, v: Byte, from: nat)
    requires !s.status.Fault? && OutsideStack(s, arg, from) && from <= StackTop(s) <= |s.ram|
    ensures var s1 := Assign(s, arg, v);
      && s1.proc == s.proc && s1.status == s.status && |s1.ram| == |s.ram|
      && s1.ram[from..StackTop(s)] == s.ram[from..StackTop(s)]
      && Content(s1, Resolve(s, arg)) == Val(v)
  {
    hide Resolve;
    ResolveValid(s, arg);
  }

  lemma ResolveErrors(s: State, arg: RawArg)
    ensures Resolve(s, arg).NoLoc? ==> Resolve(s, arg).error == Undefined || Resolve(s, arg).error == UnknownType
  {
  }

  // ----- every instruction keeps the stack pointer in range -----

  predicate StackOpcode(opcode: Byte) { opcode in {0x81, 0x91, 0xB1, 0x20} }

  /** `t` has the process record of `s`, but for the counter, and as much memory. */
  predicate SameFrame(s: State, t: State) { t.proc == s.proc.(pc := t.proc.pc) && |t.ram| == |s.ram| }

  lemma AssignKeeps(s: State, arg: RawArg, v: Byte)
    ensures SameFrame(s, Assign(s, arg, v))
  {
    ResolveValid(s, arg);
  }

  lemma CombineKeeps(s: State, op: Arith, dest: RawArg, src: RawArg)
    ensures SameFrame(s, Combine(s, op, dest, src))
  {
    hide Assign;
    forall v ensures SameFrame(s, Assign(s, dest, v)) { AssignKeeps(s, dest, v); }
  }

  lemma {:induction false} CoalesceKeeps(ram: seq<Byte>, p: nat, limit: nat)
    requires Heap.Coalesce(ram, p, limit).Some?
    ensures |Heap.Coalesce(ram, p, limit).value| == |ram|
    decreases limit - p, if p + 2 < |ram| then 0x10000 - Heap.DimAt(ram, p) else 0
  {
    hide Heap.WithSize;
    if p < limit {
      var next := p + 3 + Heap.DimAt(ram, p);
      if next < limit {
        if ram[p + 2] == Heap.FREE && ram[next + 2] == Heap.FREE {
          Heap.MergeHere(ram, p, next, limit);
          CoalesceKeeps(Heap.WithSize(ram, p, Heap.DimAt(ram, p) + 3 + Heap.DimAt(ram, next)), p, limit);
        } else {
          CoalesceKeeps(ram, next, limit);
        }
      }
    }
  }

  lemma HeapKeeps(s: State, place: RawArg, arg: RawArg)
    ensures SameFrame(s, Alloc(s, place, arg)) && SameFrame(s, Release(s, arg))
  {
    hide Assign;
    forall v, ram1: seq<Byte> | |ram1| == |s.ram| ensures SameFrame(s, Assign(s.(ram := ram1), place, v)) {
      AssignKeeps(s.(ram := ram1), place, v);
    }
    forall ptr: Word ensures SameFrame(s, ReleaseAt(s, ptr)) {
      var region := Wrap16(ptr - 3);
      if Heap.Hfree(s.ram, s.proc.heapStart, s.proc.heapLimit, ptr).Freed? {
        CoalesceKeeps(s.ram[region + 2 := Heap.FREE], s.proc.heapStart, s.proc.heapLimit);
      }
    }
  }

  /** Instructions other than the four keep the whole process record but the counter. */
  lemma {:induction false} QuietKeeps(s: State, f: Fetched)
    requires |f.args| == Arity(f.opcode) && !StackOpcode(f.opcode)
    ensures SameFrame(s, Dispatch(s, f))
  {
    hide Assign, ReadArg, Deref, Combine, Alloc, Release;
    if |f.args| > 0 {
      HeapKeeps(s, f.args[0], f.args[|f.args| - 1]);
      AssignKeeps(s.(input := Brainfuck.RestInput(s.input)), f.args[0], Brainfuck.NextInput(s.input));
    }
    if |f.args| == 2 {
      forall op ensures SameFrame(s, Combine(s, op, f.args[0], f.args[1])) { CombineKeeps(s, op, f.args[0], f.args[1]); }
      forall v ensures SameFrame(s, Assign(s, f.args[0], v)) { AssignKeeps(s, f.args[0], v); }
    }
  }

  /** The stack pointer stays in range over every step that does not throw. */
  lemma StepInRange(s: State)
    requires WellStacked(s) && !Step(s).status.Fault?
    ensures WellStacked(Step(s)) && StackTop(Step(s)) == StackTop(s) && Step(s).proc.stackLimit == s.proc.stackLimit
  {
    hide Dispatch, Fetch, Arity;
    if Live(s) {
      var (f, next) := Fetch(s.ram, s.proc.pc).value;
      FetchCount(s.ram, s.proc.pc);
      var s0 := s.(proc := s.proc.(pc := Wrap16(next)));
      if StackOpcode(f.opcode) {
        StackInRange(s0, f);
      } else {
        QuietKeeps(s0, f);
      }
    }
  }

  lemma StackInRange(s: State, f: Fetched)
    requires |f.args| == Arity(f.opcode) && StackOpcode(f.opcode) && WellStacked(s) && s.status.Running?
    requires !Dispatch(s, f).status.Fault?
    ensures var t := Dispatch(s, f);
      WellStacked(t) && StackTop(t) == StackTop(s) && t.proc.stackLimit == s.proc.stackLimit
  {
    hide Push, PushBytes, Pop, Call, Return, StackBytes, WellStacked, StackTop;
    match f.opcode
    case 0x81 => PushInRange(s, f.args[0]);
    case 0x91 => PopInRange(s, f.args[0]);
    case 0xB1 => CallInRange(s, f.args[0]);
    case 0x20 => ReturnInRange(s);
  }

  lemma PushInRange(s: State, arg: RawArg)
    requires WellStacked(s) && s.status.Running? && !Push(s, arg).status.Fault?
    ensures var t := Push(s, arg);
      WellStacked(t) && StackTop(t) == StackTop(s) && t.proc.stackLimit == s.proc.stackLimit
  {
    hide PushBytes, ReadArg, StackBytes;
    PushIs(s, arg);
    PushBytesExact(s, if StackWidth(arg) == 1 then [ReadArg(s, arg).v] else [0, ReadArg(s, arg).v]);
  }

  lemma PopInRange(s: State, arg: RawArg)
    requires WellStacked(s) && s.status.Running? && !Pop(s, arg).status.Fault?
    ensures var t := Pop(s, arg);
      WellStacked(t) && StackTop(t) == StackTop(s) && t.proc.stackLimit == s.proc.stackLimit
  {
    hide Assign;
    AssignKeeps(s, arg, s.ram[s.proc.sp + StackWidth(arg) - 1]);
  }

  lemma CallInRange(s: State, arg: RawArg)
    requires WellStacked(s) && s.status.Running? && !Call(s, arg).status.Fault?
    ensures var t := Call(s, arg);
      WellStacked(t) && StackTop(t) == StackTop(s) && t.proc.stackLimit == s.proc.stackLimit
  {
    hide PushBytes, StackBytes;
    PushBytesExact(s, [High(s.proc.pc), Low(s.proc.pc)]);
  }

  lemma ReturnInRange(s: State)
    requires WellStacked(s) && s.status.Running? && !Return(s).status.Fault?
    ensures var t := Return(s);
      WellStacked(t) && StackTop(t) == StackTop(s) && t.proc.stackLimit == s.proc.stackLimit
  {
  }

  /** Over every run that throws nothing, the stack pointer never leaves [stack_limit, top]. */
  lemma {:induction false} RunInRange(s: State, n: nat)
    requires WellStacked(s) && !Run(s, n).status.Fault?
    ensures WellStacked(Run(s, n)) && StackTop(Run(s, n)) == StackTop(s)
    decreases n
  {
    hide Step, WellStacked, StackTop;
    if n > 0 {
      if Step(s).status.Fault? { RunStopped(Step(s), n - 1); }
      StepInRange(s);
      RunInRange(Step(s), n - 1);
    }
  }

  // ----- balanced code -----

  /** The shape of a stretch of execution: single instructions, and pairs of an opening instruction
      (SPUSH or CALL) and its closing one (SPOP or RET) around a balanced body. */
  datatype Shape = Empty | Other(rest: Shape) | Nested(body: Shape, rest: Shape)

  function Steps(shape: Shape): nat {
    match shape
    case Empty => 0
    case Other(rest) => 1 + Steps(rest)
    case Nested(body, rest) => 1 + Steps(body) + 1 + Steps(rest)
  }

  /** The instruction at the counter. */
  function Next(s: State): (r: Option<Fetched>)
    ensures r.Some? ==> |r.value.args| == Arity(r.value.opcode)
  {
    match Fetch(s.ram, s.proc.pc)
    case None => None
    case Some((f, _)) =>
      FetchCount(s.ram, s.proc.pc);
      Some(f)
  }

  /** The state in which the fetched instruction executes. */
  function Ready(s: State): State
    requires Next(s).Some?
  {
    s.(proc := s.proc.(pc := Wrap16(Fetch(s.ram, s.proc.pc).value.1)))
  }

  /** The next instruction is not one of the four, does not throw, and leaves the stack's bytes alone. */
  ghost predicate Quiet(s: State) {
    && Live(s) && Next(s).Some? && !StackOpcode(Next(s).value.opcode)
    && |Step(s).ram| == |s.ram| && !Step(s).status.Fault?
    && (s.proc.sp <= StackTop(s) <= |s.ram| ==> Step(s).ram[s.proc.sp..StackTop(s)] == StackBytes(s))
  }

  /** The next instruction is an SPUSH or a CALL that fits on the stack. */
  ghost predicate Opens(s: State) {
    && Live(s) && Next(s).Some? && (Next(s).value.opcode == 0x81 || Next(s).value.opcode == 0xB1)
    && !Step(s).status.Fault?
  }

  /** At `t`, the next instruction undoes what `opening` pushed. */
  ghost predicate Closes(t: State, opening: Fetched) {
    && Live(t) && Next(t).Some? && |opening.args| == 1
    && if opening.opcode == 0xB1 then Next(t).value.opcode == 0x20
       else
         && Next(t).value.opcode == 0x91 && StackWidth(Next(t).value.args[0]) == StackWidth(opening.args[0])
         && OutsideStack(Ready(t), Next(t).value.args[0], t.proc.sp + StackWidth(opening.args[0]))
  }

  /** From `s`, execution has the given shape. */
  ghost predicate Along(s: State, shape: Shape)
    decreases shape
  {
    match shape
    case Empty => true
    case Other(rest) => Quiet(s) && Along(Step(s), rest)
    case Nested(body, rest) =>
      && Opens(s) && Along(Step(s), body)
      && var t := Run(Step(s), Steps(body));
         Closes(t, Next(s).value) && Along(Step(t), rest)
  }

  /** Same stack: pointer, limits and bytes. */
  ghost predicate SameStack(s: State, t: State) {
    && WellStacked(s) && WellStacked(t) && t.proc == s.proc.(pc := t.proc.pc)
    && StackBytes(t) == StackBytes(s)
  }

  lemma StepIs(s: State)
    requires Live(s) && Next(s).Some?
    ensures |Next(s).value.args| == Arity(Next(s).value.opcode) && Step(s) == Dispatch(Ready(s), Next(s).value)
  {
    hide Dispatch, Fetch, Arity;
    FetchCount(s.ram, s.proc.pc);
  }

  lemma QuietStep(s: State)
    requires WellStacked(s) && Quiet(s)
    ensures SameStack(s, Step(s))
  {
    hide Dispatch, Fetch, Arity, Step;
    StepIs(s);
    QuietKeeps(Ready(s), Next(s).value);
  }

  /** Bytes that the opening instruction at `s` pushes. */
  function Opened(s: State): seq<Byte>
    requires Next(s).Some? && |Next(s).value.args| == 1
  {
    var arg := Next(s).value.args[0];
    if Next(s).value.opcode == 0xB1 then [High(Ready(s).proc.pc), Low(Ready(s).proc.pc)]
    else
      match ReadArg(Ready(s), arg)
      case Err(_) => []
      case Val(v) => if StackWidth(arg) == 1 then [v] else [0, v]
  }

  lemma {:induction false} OpenStep(s: State)
    requires WellStacked(s) && Opens(s)
    ensures |Next(s).value.args| == 1
    ensures var t := Step(s); var bytes := Opened(s);
      && WellStacked(t) && StackBytes(t) == bytes + StackBytes(s)
      && t.proc == s.proc.(pc := t.proc.pc, sp := t.proc.sp) && t.proc.sp + |bytes| == s.proc.sp
      && |bytes| == (if Next(s).value.opcode == 0xB1 then 2 else StackWidth(Next(s).value.args[0]))
  {
    hide Fetch, Step, PushBytes, Push, ReadArg;
    StepIs(s);
    var f := Next(s).value;
    PushBytesExact(Ready(s), Opened(s));
    if f.opcode == 0x81 { PushIs(Ready(s), f.args[0]); }
  }

  /** Closing takes the opened bytes off; RET goes to the address that CALL pushed. */
  lemma CloseStep(s: State, t: State)
    requires WellStacked(s) && Next(s).Some? && |Next(s).value.args| == 1 && WellStacked(t)
    requires Next(s).value.opcode == 0x81 || Next(s).value.opcode == 0xB1
    requires Closes(t, Next(s).value)
    requires StackBytes(t) == Opened(s) + StackBytes(s)
    requires t.proc == s.proc.(pc := t.proc.pc, sp := t.proc.sp) && t.proc.sp + |Opened(s)| == s.proc.sp
    requires |Opened(s)| == if Next(s).value.opcode == 0xB1 then 2 else StackWidth(Next(s).value.args[0])
    ensures SameStack(s, Step(t)) && !Step(t).status.Fault?
    ensures Next(s).value.opcode == 0xB1 ==> Step(t).proc.pc == Ready(s).proc.pc
  {
    hide Fetch, Step, ReadArg, Resolve, Pop, Return;
    StepIs(t);
    assert StackBytes(t)[|Opened(s)|..] == StackBytes(s);
    if Next(s).value.opcode == 0xB1 {
      ReturnTakes(Ready(t), Ready(s).proc.pc, StackBytes(s));
    } else {
      PopExact(Ready(t), Next(t).value.args[0]);
    }
  }

  /** RET takes an address off the stack and goes there. */
  lemma ReturnTakes(t: State, pc: Word, below: seq<Byte>)
    requires WellStacked(t) && StackBytes(t) == [High(pc), Low(pc)] + below
    ensures Return(t) == t.(proc := t.proc.(sp := t.proc.sp + 2, pc := pc))
    ensures WellStacked(Return(t)) && StackBytes(Return(t)) == below
  {
    hide High, Low, Join;
    JoinSplit(pc);
    Loader.Untruncated(t.proc.sp + 2);
    Loader.Untruncated(pc);
    TopTwo(t.ram, t.proc.sp, StackTop(t), High(pc), Low(pc), below);
  }

  lemma TopTwo(ram: seq<Byte>, sp: nat, top: nat, x: Byte, y: Byte, below: seq<Byte>)
    requires sp <= top <= |ram| && ram[sp..top] == [x, y] + below
    ensures sp + 2 <= top && ram[sp] == x && ram[sp + 1] == y && ram[sp + 2..top] == below
  {
    assert ram[sp] == ram[sp..top][0];
    assert ram[sp + 1] == ram[sp..top][1];
    assert ram[sp + 2..top] == ram[sp..top][2..] == ([x, y] + below)[2..];
  }

  /** Balanced code leaves the stack as it found it, at any nesting depth. */
  lemma {:induction false} BalancedKeepsStack(s: State, shape: Shape)
    requires WellStacked(s) && Along(s, shape)
    ensures SameStack(s, Run(s, Steps(shape)))
    decreases shape, 0
  {
    hide Step, Quiet, Opens, Closes, Opened, WellStacked, StackBytes, SameStack;
    match shape
    case Empty => StackItself(s);
    case Other(rest) =>
      QuietStep(s);
      SameStackIsStacked(s, Step(s));
      BalancedKeepsStack(Step(s), rest);
      StackThrough(s, Step(s), Run(Step(s), Steps(rest)));
    case Nested(body, rest) =>
      var t := Run(Step(s), Steps(body));
      NestedStep(s, body);
      NestedRun(s, body, rest);
      SameStackIsStacked(s, Step(t));
      BalancedKeepsStack(Step(t), rest);
      StackThrough(s, Step(t), Run(Step(t), Steps(rest)));
  }

  lemma NestedRun(s: State, body: Shape, rest: Shape)
    ensures Run(s, Steps(Nested(body, rest))) == Run(Step(Run(Step(s), Steps(body))), Steps(rest))
  {
    hide Step, Run;
    RunAround(s, Steps(body), Steps(rest));
  }

  lemma RunAround(s: State, m: nat, n: nat)
    ensures Run(s, 1 + m + 1 + n) == Run(Step(Run(Step(s), m)), n)
  {
    hide *;
    var all := m + (1 + n);
    assert 1 + m + 1 + n == 1 + all;
    RunFirst(s, all);
    RunAdd(Step(s), m, 1 + n);
    RunFirst(Run(Step(s), m), n);
  }

  lemma RunFirst(s: State, n: nat)
    ensures Run(s, 1 + n) == Run(Step(s), n)
  {
    hide Step;
  }

  lemma StackItself(s: State)
    requires WellStacked(s)
    ensures SameStack(s, s)
  {
  }

  lemma SameStackIsStacked(s: State, t: State)
    requires SameStack(s, t)
    ensures WellStacked(t)
  {
  }

  lemma StackThrough(s: State, t: State, u: State)
    requires SameStack(s, t) && SameStack(t, u)
    ensures SameStack(s, u)
  {
  }

  lemma {:induction false} NestedStep(s: State, body: Shape)
    requires WellStacked(s) && Opens(s) && Along(Step(s), body) && Closes(Run(Step(s), Steps(body)), Next(s).value)
    ensures SameStack(s, Step(Run(Step(s), Steps(body))))
    ensures Next(s).value.opcode == 0xB1 ==> Step(Run(Step(s), Steps(body))).proc.pc == Ready(s).proc.pc
    decreases body, 1
  {
    hide Step, Closes, Opened, Along, Fetch;
    OpenStep(s);
    BalancedKeepsStack(Step(s), body);
    CloseStep(s, Run(Step(s), Steps(body)));
  }

  /** A CALL whose body is balanced returns to the instruction behind it, with the stack pointer and all
      bytes on the stack as they were, whatever calls and pushes the body nests. */
  lemma {:induction false} CallReturns(s: State, body: Shape)
    requires WellStacked(s) && Live(s) && Next(s).Some? && Next(s).value.opcode == 0xB1 && !Step(s).status.Fault?
    requires Along(Step(s), body)
    requires var t := Run(Step(s), Steps(body)); Live(t) && Next(t).Some? && Next(t).value.opcode == 0x20
    ensures var u := Run(s, 1 + Steps(body) + 1);
      u.proc == s.proc.(pc := Wrap16(Fetch(s.ram, s.proc.pc).value.1)) && SameStack(s, u)
  {
    hide Step, Along, Fetch, Run;
    OpenStep(s);
    var t := Run(Step(s), Steps(body));
    NestedStep(s, body);
    CallRun(s, body);
  }

  /** CALL writes its operand to the counter without the base address that JMP adds, so it arrives at the
      label iff the process lies at address 0. */
  lemma CallArrives(s: State, target: RawArg)
    requires target.typ == ADDRESS && WellStacked(s) && s.status.Running? && !Call(s, target).status.Fault?
    ensures Call(s, target).proc.pc == Jump(s, target).proc.pc <==> s.proc.firstSector == 0
  {
    hide PushBytes;
    PushBytesExact(s, [High(s.proc.pc), Low(s.proc.pc)]);
  }

  /** With a label of an assembled program: CALL goes to the label's offset, JMP to the place in memory where
      the label's code lies. */
  lemma CallOfLabel(lines: seq<Line>, s: State, l: Label)
    requires Known(lines) && LabelAt(lines, l) >= 0 && WideCount(lines[..LabelAt(lines, l)]) == 0
    requires s.proc.firstSector + |Assembled(lines)| < 0x1_0000
    requires WellStacked(s) && s.status.Running? && !Call(s, RawOf(lines, Ref(l))).status.Fault?
    ensures var at := s.proc.firstSector + Landed(lines, LabelAt(lines, l));
      && Jump(s, RawOf(lines, Ref(l))).proc.pc == at
      && (Call(s, RawOf(lines, Ref(l))).proc.pc == at <==> s.proc.firstSector == 0)
  {
    hide Assembled, Landed, AddressOf, WideCount, LabelAt;
    LabelExact(lines, l);
    LandedInside(lines, LabelAt(lines, l));
    PushBytesExact(s, [High(s.proc.pc), Low(s.proc.pc)]);
    hide PushBytes;
  }

  /** So no CALL in the second of two loaded programs arrives at its label. */
  lemma {:induction false} CallInSecondProgram(ram: seq<Byte>, first: seq<Byte>, lines: seq<Line>, s: State, l: Label)
    requires |ram| == FreeList.RAM_SIZE && Known(lines)
    requires Loader.Footprint(first) + Loader.Footprint(Assembled(lines)) <= FreeList.MANAGED
    requires LabelAt(lines, l) >= 0 && WideCount(lines[..LabelAt(lines, l)]) == 0
    requires WellStacked(s) && s.status.Running? && !Call(s, RawOf(lines, Ref(l))).status.Fault?
    requires var slots := Loader.Load(Loader.Load(Loader.FreshHost(ram), first), Assembled(lines)).slots;
      |slots| == 2 ==> s.proc == slots[1].proc.(pc := s.proc.pc, sp := s.proc.sp)
    ensures s.proc.firstSector == Loader.Footprint(first) > 0
    ensures Call(s, RawOf(lines, Ref(l))).proc.pc != s.proc.firstSector + Landed(lines, LabelAt(lines, l))
  {
    hide Assembled, Landed, AddressOf, WideCount, LabelAt, Loader.Load, Loader.FreshHost, Call;
    Loader.SecondProgram(ram, first, Assembled(lines));
    CallOfLabel(lines, s, l);
  }

  lemma CallRun(s: State, body: Shape)
    ensures Run(s, 1 + Steps(body) + 1) == Step(Run(Step(s), Steps(body)))
  {
    hide Step, Run;
    NestedRun(s, body, Empty);
    RunNothing(Step(Run(Step(s), Steps(body))));
  }
}
