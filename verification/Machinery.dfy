/** The `VM` class: memory, registers, flags and streams updated in place by `exec`, each method
    against its counterpart on machine states. */
module Machinery {
  import opened Bytes
  import opened Isa
  import opened Heap
  import opened Loader
  import opened FreeList
  import Brainfuck
  import Vm

  class VM {
    const RAM: array<Byte>
    const registers: array<Byte>
    const manager: MemoryManager
    const loader: ProgramLoader
    var zero: bool
    var sign: bool
    var input: seq<int>
    var output: seq<Byte>

    /** What the constructor fixes. */
    ghost predicate Valid() { RAM.Length == RAM_SIZE && registers.Length == 5 && RAM != registers }

    constructor (numbers: seq<int>)
      ensures Valid() && fresh(RAM) && fresh(registers) && fresh(manager) && fresh(loader)
      ensures RAM[..] == seq(RAM_SIZE, _ => 0) && registers[..] == [0, 0, 0, 0, 0]
      ensures manager.freeList == [Range(0, MANAGED)] && loader.nextReadyPid == 1
      ensures !zero && !sign && input == numbers && output == []
    {
      RAM := new Byte[RAM_SIZE](_ => 0);
      registers := new Byte[5](_ => 0);
      manager := new MemoryManager();
      loader := new ProgramLoader();
      zero, sign := false, false;
      input, output := numbers, [];
    }

    /** The machine and one process as a state. */
    function State(proc: Process, status: Vm.Status): Vm.State
      reads this, RAM, registers, proc
    {
      Vm.State(RAM[..], registers[..], zero, sign, proc.State(), input, output, status)
    }

    /** None is the exception of a failed allocation. */
    method LoadProgramInRam(bytecode: seq<Byte>) returns (r: Process?)
      requires Valid() && Canonical(manager.freeList)
      modifies RAM, manager, loader
      ensures match Take(old(manager.freeList), Footprint(bytecode))
        case None => r == null && RAM[..] == old(RAM[..]) && manager.freeList == old(manager.freeList)
        case Some((f, list)) =>
          && r != null && fresh(r) && manager.freeList == list && Canonical(list) && f + Footprint(bytecode) <= MANAGED
          && RAM[..] == LoadedRam(old(RAM[..]), f, bytecode)
          && r.State() == LoadedProc(old(RAM[..]), f, bytecode) && r.running
    {
      hide Take, Canonical, LoadedRam, LoadedProc;
      r := loader.LoadProgram(bytecode, manager, RAM);
    }

    // ----- operands -----

    method ResolveWriteable(proc: Process, arg: RawArg) returns (loc: Vm.Loc)
      requires Valid()
      ensures loc == Vm.Resolve(State(proc, Vm.Running), arg)
    {
      if arg.typ == REGISTER {
        return if 1 <= arg.value <= registers.Length then Vm.RegAt(arg.value - 1) else Vm.NoLoc(Vm.Undefined);
      }
      var target: nat;
      if arg.typ == INDIRECT_LBL || arg.typ == INDIRECT_MEM || arg.typ == ADDRESS {
        var addr := Wrap16(arg.value + proc.firstSector);
        if arg.typ == INDIRECT_LBL {
          if addr + 1 >= RAM.Length {
            return Vm.NoLoc(Vm.Undefined);
          }
          target := proc.firstSector + Join(RAM[addr], RAM[addr + 1]);
        } else {
          target := addr;
        }
      } else if arg.typ == INDIRECT_REG {
        if !(1 <= arg.value <= registers.Length) {
          return Vm.NoLoc(Vm.Undefined);
        }
        target := proc.firstSector + registers[arg.value - 1];
      } else {
        return Vm.NoLoc(Vm.UnknownType);
      }
      return if target < RAM.Length then Vm.CellAt(target) else Vm.NoLoc(Vm.Undefined);
    }

    method Deref(proc: Process, arg: RawArg) returns (r: Vm.Read)
      requires Valid()
      ensures r == Vm.Deref(State(proc, Vm.Running), arg)
    {
      var loc := ResolveWriteable(proc, arg);
      Vm.ResolveValid(State(proc, Vm.Running), arg);
      match loc {
        case NoLoc(e) => return Vm.Err(e);
        case RegAt(i) => return Vm.Val(registers[i]);
        case CellAt(addr) => return Vm.Val(RAM[addr]);
      }
    }

    method ReadArg(proc: Process, arg: RawArg) returns (r: Vm.Read)
      requires Valid()
      ensures r == Vm.ReadArg(State(proc, Vm.Running), arg)
    {
      if arg.typ == NUMBER {
        return Vm.Val(Wrap(arg.value));
      }
      r := Deref(proc, arg);
    }

    method Assign(proc: Process, dest: RawArg, v: Byte) returns (status: Vm.Status)
      requires Valid()
      modifies RAM, registers
      ensures State(proc, status) == Vm.Assign(old(State(proc, Vm.Running)), dest, v)
    {
      var loc := ResolveWriteable(proc, dest);
      Vm.ResolveValid(State(proc, Vm.Running), dest);
      match loc {
        case NoLoc(e) => return Vm.Fault(e);
        case RegAt(i) => registers[i] := v;
        case CellAt(addr) => RAM[addr] := v;
      }
      return Vm.Running;
    }

    method FetchArgument(proc: Process) returns (arg: RawArg)
      requires Valid() && FetchArg(RAM[..], proc.PC).Some?
      modifies proc`PC
      ensures FetchArg(RAM[..], old(proc.PC)).value.0 == arg
      ensures proc.PC == Wrap16(FetchArg(RAM[..], old(proc.PC)).value.1)
    {
      var typ := RAM[proc.PC];
      var pc := proc.PC;
      proc.PC := Wrap16(proc.PC + 1);
      var value := 0;
      if typ == ADDRESS || typ == INDIRECT_LBL || typ == INDIRECT_MEM || typ == NUMBER_16 {
        var high := RAM[pc + 1];
        var low := RAM[pc + 2];
        value := Join(high, low);
        proc.PC := Wrap16(pc + 3);
      } else if typ == REGISTER || typ == INDIRECT_REG || typ == NUMBER {
        value := RAM[pc + 1];
        proc.PC := Wrap16(pc + 2);
      }
      return RawArg(typ, value);
    }

    /** The operands of one instruction, in order. */
    method FetchArguments(proc: Process, n: nat) returns (args: seq<RawArg>)
      requires Valid() && FetchArgs(RAM[..], proc.PC, n).Some?
      modifies proc`PC
      ensures args == FetchArgs(RAM[..], old(proc.PC), n).value.0
      ensures proc.PC == Wrap16(FetchArgs(RAM[..], old(proc.PC), n).value.1)
    {
      hide FetchArg;
      args := [];
      var k := n;
      assert args + FetchArgs(RAM[..], proc.PC, n).value.0 == FetchArgs(RAM[..], proc.PC, n).value.0;
      while k > 0
        invariant 0 <= k <= n && FetchArgs(RAM[..], proc.PC, k).Some?
        invariant var (rest, next) := FetchArgs(RAM[..], proc.PC, k).value;
          FetchArgs(RAM[..], old(proc.PC), n) == Some((args + rest, next))
      {
        FetchesOne(RAM[..], proc.PC, k, args);
        var arg := FetchArgument(proc);
        args := args + [arg];
        k := k - 1;
      }
    }

    // ----- instructions -----

    method Move(proc: Process, dest: RawArg, src: RawArg) returns (status: Vm.Status)
      requires Valid()
      modifies RAM, registers
      ensures State(proc, status) == Vm.Move(old(State(proc, Vm.Running)), dest, src)
    {
      hide Vm.ReadArg, Vm.Assign;
      var v := ReadArg(proc, src);
      if v.Err? {
        return Vm.Fault(v.error);
      }
      status := Assign(proc, dest, v.v);
    }

    method Combine(proc: Process, op: Vm.Arith, dest: RawArg, src: RawArg) returns (status: Vm.Status)
      requires Valid()
      modifies RAM, registers
      ensures State(proc, status) == Vm.Combine(old(State(proc, Vm.Running)), op, dest, src)
    {
      hide Vm.ReadArg, Vm.Assign, Vm.Deref;
      var y := ReadArg(proc, src);
      if y.Err? {
        return Vm.Fault(y.error);
      }
      if op.Div? && y.v == 0 {
        return Vm.Fault(Vm.DivideByZero);
      }
      var x := Deref(proc, dest);
      if x.Err? {
        return Vm.Fault(x.error);
      }
      status := Assign(proc, dest, Vm.Result(op, x.v, y.v));
    }

    method Print(proc: Process, arg: RawArg) returns (status: Vm.Status)
      requires Valid()
      modifies `output
      ensures State(proc, status) == Vm.Print(old(State(proc, Vm.Running)), arg)
    {
      var v := ReadArg(proc, arg);
      if v.Err? {
        return Vm.Fault(v.error);
      }
      output := output + [v.v];
      return Vm.Running;
    }

    method Input(proc: Process, arg: RawArg) returns (status: Vm.Status)
      requires Valid()
      modifies `input, RAM, registers
      ensures State(proc, status) == Vm.Input(old(State(proc, Vm.Running)), arg)
    {
      hide Vm.Assign;
      var tmp := Brainfuck.NextInput(input);
      input := Brainfuck.RestInput(input);
      status := Assign(proc, arg, tmp);
    }

    method Compare(proc: Process, arg1: RawArg, arg2: RawArg) returns (status: Vm.Status)
      requires Valid()
      modifies `zero, `sign
      ensures State(proc, status) == Vm.Compare(old(State(proc, Vm.Running)), arg1, arg2)
    {
      var val1 := ReadArg(proc, arg1);
      if val1.Err? {
        return Vm.Fault(val1.error);
      }
      var val2 := ReadArg(proc, arg2);
      if val2.Err? {
        return Vm.Fault(val2.error);
      }
      var res: int := (val1.v as int) - (val2.v as int);
      zero := res == 0;
      sign := res > 0;
      return Vm.Running;
    }

    method Jump(proc: Process, target: RawArg) returns (status: Vm.Status)
      requires Valid()
      modifies proc`PC
      ensures State(proc, status) == Vm.Jump(old(State(proc, Vm.Running)), target)
    {
      var offset: Word := target.value;
      if target.typ != ADDRESS {
        var v := Deref(proc, target);
        if v.Err? {
          return Vm.Fault(v.error);
        }
        offset := v.v;
      }
      proc.PC := Wrap16(proc.firstSector + offset);
      return Vm.Running;
    }

    method JumpIf(proc: Process, taken: bool, target: RawArg) returns (status: Vm.Status)
      requires Valid()
      modifies proc`PC
      ensures State(proc, status) == Vm.JumpIf(old(State(proc, Vm.Running)), taken, target)
    {
      if !taken {
        return Vm.Running;
      }
      var value: Word := target.value;
      if !(target.typ == NUMBER || target.typ == ADDRESS) {
        var v := Deref(proc, target);
        if v.Err? {
          return Vm.Fault(v.error);
        }
        value := v.v;
      }
      proc.PC := Wrap16(proc.firstSector + value);
      return Vm.Running;
    }

    /** The common part of SPUSH and CALL: one or two bytes. */
    method PushBytes(proc: Process, bytes: seq<Byte>) returns (status: Vm.Status)
      requires Valid() && 1 <= |bytes| <= 2
      modifies proc`SP, RAM
      ensures State(proc, status) == Vm.PushBytes(old(State(proc, Vm.Running)), bytes)
    {
      proc.SP := Wrap16(proc.SP - |bytes|);
      if proc.SP < proc.stackLimit {
        return Vm.Fault(Vm.StackOverflow);
      }
      if proc.SP + |bytes| > RAM.Length {
        return Vm.Fault(Vm.Undefined);
      }
      WriteBytes(proc.SP, bytes);
      return Vm.Running;
    }

    method WriteBytes(at: nat, bytes: seq<Byte>)
      requires Valid() && 1 <= |bytes| <= 2 && at + |bytes| <= RAM.Length
      modifies RAM
      ensures RAM[..] == old(RAM[..at] + bytes + RAM[at + |bytes|..])
    {
      RAM[at] := bytes[0];
      if |bytes| == 2 {
        RAM[at + 1] := bytes[1];
      }
    }

    method Spush(proc: Process, arg: RawArg) returns (status: Vm.Status)
      requires Valid()
      modifies proc`SP, RAM
      ensures State(proc, status) == Vm.Push(old(State(proc, Vm.Running)), arg)
    {
      hide Vm.ReadArg, Vm.PushBytes;
      var value := ReadArg(proc, arg);
      if value.Err? {
        return Vm.Fault(value.error);
      }
      if Vm.StackWidth(arg) == 1 {
        status := PushBytes(proc, [value.v]);
      } else {
        status := PushBytes(proc, [0, value.v]);
      }
    }

    method Spop(proc: Process, arg: RawArg) returns (status: Vm.Status)
      requires Valid()
      modifies proc`SP, RAM, registers
      ensures State(proc, status) == Vm.Pop(old(State(proc, Vm.Running)), arg)
    {
      hide Vm.Assign;
      var dimToRelease := Vm.StackWidth(arg);
      if proc.SP + dimToRelease > proc.firstSector + proc.allocatedMemory {
        return Vm.Fault(Vm.StackUnderflow);
      }
      if proc.SP + dimToRelease > RAM.Length {
        return Vm.Fault(Vm.Undefined);
      }
      status := Assign(proc, arg, RAM[proc.SP + dimToRelease - 1]);
      if !status.Fault? {
        proc.SP := Wrap16(proc.SP + dimToRelease);
      }
    }

    method Halloc(proc: Process, place: RawArg, size: RawArg) returns (status: Vm.Status)
      requires Valid()
      modifies RAM, registers
      ensures status == Vm.Alloc(old(State(proc, Vm.Running)), place, size).status
      ensures status != Vm.Fault(Vm.Undefined) ==> State(proc, status) == Vm.Alloc(old(State(proc, Vm.Running)), place, size)
    {
      hide Vm.Assign, Vm.Deref, Heap.Halloc;
      var n: Vm.Read;
      if size.typ == NUMBER {
        n := Vm.Val(Wrap(size.value));
      } else {
        n := Deref(proc, size);
      }
      if n.Err? {
        return Vm.Fault(n.error);
      }
      var result, ptr := HallocInPlace(RAM, proc.heapStart, proc.heapLimit, n.v);
      match result {
        case Overflowed => return Vm.Fault(Vm.HeapOverflow);
        case Done => status := Assign(proc, place, Wrap(ptr));
        case _ => return Vm.Fault(Vm.Undefined);
      }
    }

    method Hfree(proc: Process, arg: RawArg) returns (status: Vm.Status)
      requires Valid()
      modifies RAM
      ensures status == Vm.Release(old(State(proc, Vm.Running)), arg).status
      ensures status != Vm.Fault(Vm.Undefined) ==> State(proc, status) == Vm.Release(old(State(proc, Vm.Running)), arg)
    {
      hide Vm.Deref, Heap.Hfree;
      var ptr: Word := arg.value;
      if arg.typ != ADDRESS {
        var v := Deref(proc, arg);
        if v.Err? {
          return Vm.Fault(v.error);
        }
        ptr := v.v;
      }
      var result := HfreeInPlace(RAM, proc.heapStart, proc.heapLimit, ptr);
      match result {
        case Done => return Vm.Running;
        case NotOwned => return Vm.Fault(Vm.FreeOfFree);
        case _ => return Vm.Fault(Vm.Undefined);
      }
    }

    method Call(proc: Process, arg: RawArg) returns (status: Vm.Status)
      requires Valid()
      modifies proc`PC, proc`SP, RAM
      ensures State(proc, status) == Vm.Call(old(State(proc, Vm.Running)), arg)
    {
      hide Vm.PushBytes;
      if arg.typ != ADDRESS {
        return Vm.Fault(Vm.CallOfNonLabel);
      }
      status := PushBytes(proc, [High(proc.PC), Low(proc.PC)]);
      if !status.Fault? {
        proc.PC := arg.value;
      }
    }

    method Return(proc: Process) returns (status: Vm.Status)
      requires Valid()
      modifies proc`PC, proc`SP
      ensures State(proc, status) == Vm.Return(old(State(proc, Vm.Running)))
    {
      if proc.SP + 2 > proc.firstSector + proc.allocatedMemory {
        return Vm.Fault(Vm.StackUnderflow);
      }
      if proc.SP + 2 > RAM.Length {
        return Vm.Fault(Vm.Undefined);
      }
      var retAddr := Join(RAM[proc.SP], RAM[proc.SP + 1]);
      proc.SP := Wrap16(proc.SP + 2);
      proc.PC := retAddr;
      return Vm.Running;
    }

    // ----- the loop -----

    /** One instruction whose opcode and operands have been fetched. */
    method Dispatch(proc: Process, f: Fetched) returns (status: Vm.Status)
      requires Valid() && |f.args| == Arity(f.opcode)
      modifies this, RAM, registers, proc
      ensures proc.running == (old(proc.running) && status != Vm.Halted)
      ensures status == Vm.Dispatch(old(State(proc, Vm.Running)), f).status
      ensures status != Vm.Fault(Vm.Undefined) ==> State(proc, status) == Vm.Dispatch(old(State(proc, Vm.Running)), f)
    {
      hide Vm.Move, Vm.Combine, Vm.Print, Vm.Input, Vm.Compare, Vm.Jump, Vm.JumpIf, Vm.Push, Vm.Pop, Vm.Alloc, Vm.Release,
        Vm.Call, Vm.Return;
      Vm.OnlyHaltHalts(State(proc, Vm.Running), f);
      match f.opcode {
        case 0x00 => status := Vm.Running;
        case 0x12 => status := Move(proc, f.args[0], f.args[1]);
        case 0x01 => status := Print(proc, f.args[0]);
        case 0x10 =>
          output := output + [10];
          status := Vm.Running;
        case 0x32 => status := Combine(proc, Vm.Add, f.args[0], f.args[1]);
        case 0x52 => status := Combine(proc, Vm.Sub, f.args[0], f.args[1]);
        case 0x72 => status := Combine(proc, Vm.Mul, f.args[0], f.args[1]);
        case 0x92 => status := Combine(proc, Vm.Div, f.args[0], f.args[1]);
        case 0x21 => status := Input(proc, f.args[0]);
        case 0x31 => status := Jump(proc, f.args[0]);
        case 0xB2 => status := Compare(proc, f.args[0], f.args[1]);
        case 0x41 => status := JumpIf(proc, zero, f.args[0]);
        case 0x51 => status := JumpIf(proc, !zero, f.args[0]);
        case 0x61 => status := JumpIf(proc, sign, f.args[0]);
        case 0x71 => status := JumpIf(proc, !sign, f.args[0]);
        case 0x81 => status := Spush(proc, f.args[0]);
        case 0x91 => status := Spop(proc, f.args[0]);
        case 0xC2 => status := Halloc(proc, f.args[0], f.args[1]);
        case 0xA1 => status := Hfree(proc, f.args[0]);
        case 0xB1 => status := Call(proc, f.args[0]);
        case 0x20 => status := Return(proc);
        case 0xD2 => status := Vm.Fault(Vm.NotGraphical);
        case 0x30 => status := Vm.Fault(Vm.Undefined);
        case 0xFF =>
          proc.running := false;
          status := Vm.Halted;
        case _ => status := Vm.Fault(Vm.InvalidOpcode);
      }
    }

    /** One round of the loop of `exec`. */
    method Step(proc: Process) returns (status: Vm.Status)
      requires Valid() && Vm.Live(State(proc, Vm.Running))
      modifies this, RAM, registers, proc
      ensures proc.running == (old(proc.running) && status != Vm.Halted)
      ensures status == Vm.Step(old(State(proc, Vm.Running))).status
      ensures status != Vm.Fault(Vm.Undefined) ==> State(proc, status) == Vm.Step(old(State(proc, Vm.Running)))
    {
      hide Vm.Dispatch, Arity;
      var pc := proc.PC;
      if pc >= RAM.Length {
        return Vm.Fault(Vm.Undefined);
      }
      var opcode := RAM[pc];
      if FetchArgs(RAM[..], pc + 1, Arity(opcode)).None? {
        return Vm.Fault(Vm.Undefined);
      }
      FetchedTogether(RAM[..], pc);
      proc.PC := Wrap16(pc + 1);
      var args := FetchArguments(proc, Arity(opcode));
      status := Dispatch(proc, Fetched(opcode, args));
    }

    /** `exec` for at most `fuel` rounds. A process that stops without an exception gets its counter back to
        its base; one that has halted before is not run again, only its counter is put back. */
    method Exec(proc: Process, fuel: nat) returns (status: Vm.Status)
      requires Valid()
      modifies this, RAM, registers, proc
      ensures !old(proc.running) ==>
        && status == Vm.Halted && !proc.running
        && State(proc, status) == old(State(proc, Vm.Halted)).(proc := old(proc.State()).(pc := old(proc.firstSector)))
      ensures old(proc.running) ==>
        var final := Vm.Run(old(State(proc, Vm.Running)), fuel);
        && status == final.status && (proc.running <==> status != Vm.Halted)
        && (status != Vm.Fault(Vm.Undefined) ==>
              State(proc, status)
                == if Vm.Live(final) || status.Fault? then final
                   else final.(proc := final.proc.(pc := final.proc.firstSector)))
    {
      hide Vm.Step, Vm.Run;
      ghost var start := State(proc, Vm.Running);
      status := if proc.running then Vm.Running else Vm.Halted;
      var n := 0;
      Vm.RunNothing(start);
      while n < fuel && !status.Fault? && proc.running && proc.PC < proc.lastCodeSector
        invariant 0 <= n <= fuel && (proc.running <==> status != Vm.Halted)
        invariant !old(proc.running) ==> n == 0 && State(proc, status) == old(State(proc, Vm.Halted))
        invariant old(proc.running) ==> status == Vm.Run(start, n).status
        invariant old(proc.running) && status != Vm.Fault(Vm.Undefined) ==> State(proc, status) == Vm.Run(start, n)
      {
        Vm.RunLast(start, n);
        status := Step(proc);
        n := n + 1;
      }
      if old(proc.running) && (n == fuel || !Vm.Live(Vm.Run(start, n))) { Vm.RunFrozen(start, n, fuel); }
      if status.Fault? {
        return;
      }
      if !(proc.running && proc.PC < proc.lastCodeSector) {
        proc.PC := proc.firstSector;
      }
    }

    method Reset()
      requires Valid()
      modifies this, registers, manager, loader
      ensures !zero && !sign && registers[..] == [0, 0, 0, 0, 0]
      ensures manager.freeList == [Range(0, MANAGED)] && loader.nextReadyPid == 1
      ensures input == old(input) && output == old(output)
    {
      manager.Reset();
      loader.Reset();
      for i := 0 to registers.Length
        modifies registers
        invariant forall j :: 0 <= j < i ==> registers[j] == 0
      {
        registers[i] := 0;
      }
      zero, sign := false, false;
    }
  }

  lemma FetchesOne(ram: seq<Byte>, pc: Word, n: nat, done: seq<RawArg>)
    requires n > 0 && FetchArgs(ram, pc, n).Some? && |ram| < 0x1_0000
    ensures FetchArg(ram, pc).Some?
    ensures var (arg, next) := FetchArg(ram, pc).value; var (rest, end) := FetchArgs(ram, pc, n).value;
      && next < 0x1_0000 && FetchArgs(ram, next, n - 1).Some?
      && var (tail, end1) := FetchArgs(ram, next, n - 1).value;
         end == end1 && done + rest == done + [arg] + tail
  {
  }

  /** Fetching the opcode and its operands is fetching the instruction. */
  lemma FetchedTogether(ram: seq<Byte>, pc: nat)
    requires pc < |ram| && FetchArgs(ram, pc + 1, Arity(ram[pc])).Some?
    ensures var (args, next) := FetchArgs(ram, pc + 1, Arity(ram[pc])).value;
      Fetch(ram, pc) == Some((Fetched(ram[pc], args), next)) && |args| == Arity(ram[pc])
  {
    Vm.FetchCount(ram, pc);
  }
}
