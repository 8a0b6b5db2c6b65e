# A verified model of the 8-bit VM toolchain

The repository is a small complete toolchain: a Brainfuck compiler with two optimising passes, a two-pass
assembler, a bytecode machine with a heap and a stack inside its RAM, and a host-side allocator of process
regions. This project models it in Dafny and proves what it computes.

The compilation chain is modelled on parsed assembly lines. `Brainfuck.dfy` is the reference interpreter, on the
tape that the compiler really provides: a ring of 256 byte cells (the data pointer is the 8-bit register A) whose
first two cells hold the entry point. `Translate`, `FoldRuns`, `LoopPass` and `Assembler` hold the stages as the
source writes them, as methods with loops, each against a recursive specification. `CodeTrees` relates the flat
label/CMP/JE/JNE text to nested loops; each pass is shown to commute with flattening, so that its meaning is proved
on loop trees. `Machine` runs assembly lines, `Vm` runs bytes, `Refinement` relates the two step by step, and
`EndToEnd` puts everything together: a loaded process and the interpreter terminate together and agree on tape,
pointer, input and output. `TextLimits` says from the text alone which programs that covers, `Limits` what happens to
others, and `Toolchain` is `main`: compile, load and run as one method.

Beside the chain, some modules say what its stages do in the terms of what goes in and comes out, without the
definitions that the stages share. `Commands` does so for each character of a text and for the order in which input
is used up, `StepRuns` and `Recognition` for which lines are folded and which loops replaced, `Lines` for the bytes of
every line of the instruction set and for what a round at them does, `Streams` for input and output over whole runs of the
machine, and `HeapBytes` for heap headers. `Listings` follows two texts all the way.

`Machinery` holds the `VM` class, whose methods update memory, registers, flags and process in place and are proved
against `Vm`. `Heap`, `HeapBlocks`, `HeapRuns` and `HeapInstructions` treat HALLOC and HFREE: the implicit block
chain in RAM refines a sequence of blocks, and whole runs refine a set of disjoint regions. `Stack` is the stack
discipline, `Lifo` its refinement of an abstract stack over whole runs, `HeapAndStack` the 3 bytes that heap and
stack share, and `ProcessRuns` keeps both in order over whole runs. `FreeList` is `MemoryManager`, and `Loader` is `Process` and `Loader`.

Where the code falls short of what it promises, the model follows the code and says exactly when it is right:

- Numerals above 255 are encoded as NUMBER_16, which arithmetic cannot resolve
  (`custom-isa-8bit-vm/src/Assembler.cpp:46-47`, `custom-isa-8bit-vm/src/VM.cpp:62-63`). Run folding produces them, so
  256 equal commands in a row compile to a program that throws (`Limits.PlusesExact`). Without loops this condition
  is exact, on the assembly (`Limits.LoopFreeExact`) and on the text (`TextLimits.FlatTextExact`). With loops it is
  sufficient (on the text: `TextLimits.TextIsCompiledCorrectly`); where the first such numeral stands outside every
  loop, the process is right only about programs that never end (`Limits.WideAtTopExact`), and inside a loop that is
  never entered it may do no harm (`WideLoops.NarrowIsNotNecessary`).
- A multiply loop that changes a cell 256 away changes its own counter. Its replacement is right iff such changes
  cancel out (`LoopTrees.ReplacementExact`; `LoopTrees.FarBodyFails` is one that is wrong); code without numerals above 255 cannot contain one that do not
  (`NarrowLoops.NarrowIsSafe`), so the end-to-end theorem needs no further condition.
- HALLOC returns its 16-bit pointer through an 8-bit cell (`custom-isa-8bit-vm/src/VM.cpp:495-497`), which keeps it
  iff it is below 256 (`HeapInstructions.AllocInstruction`). A process can get such a pointer iff its heap starts below
  253 (`HeapInstructions.UsablePointers`).
- CALL does not add the base address of the process (`Stack.CallArrives`), so it misses its label in every program but
  the first (`Stack.CallInSecondProgram`).
- The initial heap block has a payload of 1000 bytes plus a header, so the chain reaches 3 bytes into the stack. A push
  within the stack limit may overwrite the last header, and HALLOC and HFREE a pushed byte. All three are safe exactly
  from 2 bytes above the heap limit on (`HeapAndStack.PushSafeExact`, `AllocSafeExact`, `FreeSafeExact`).
- Only one compiled program fits into memory at a time (`EndToEnd.OnlyOneFits`).
- An empty region of the host allocator can only be given back while it touches a free range (`FreeList.FreeNothing`).

A `State` of the machine carries the input as the numbers not yet read (0 at the end, as reading from an exhausted
stream leaves it) and the output as the bytes written so far. The status `Undefined` stands for accesses outside the
source's vectors and for heap walks that wrap around on a corrupt heap; no theorem about loaded programs or
well-formed heaps needs it.

`dafny verify dfyconfig.toml` checks the project.

## Model

| member | source | states |
|---|---|---|
| EndToEnd.CompilerIsCorrect | custom-isa-8bit-vm/src/Brainfvck.cpp:15-101 | Main result. For every balanced text whose assembly has no numeral above 255, a process just loaded with the compiled bytes (anywhere in memory, with any registers and flags) halts with a given tape, A, remaining input and output iff the Brainfuck program, interpreted on the 256-cell ring from A = 2, ends with them |
| EndToEnd.ProcessFollows | custom-isa-8bit-vm/src/Brainfvck.cpp:15-101 | The forward half: from an interpreter run that ends, the number of rounds of the byte machine after which it has halted in the same observable state |
| EndToEnd.ProcessHalts | custom-isa-8bit-vm/src/Brainfvck.cpp:15-101 | The backward half: a halted process yields fuel with which the interpreter ends in the same state, so the process terminates only if the program does |
| EndToEnd.ProcessIsContained | custom-isa-8bit-vm/src/VM.cpp:59-61 | Every state that a compiled program without numerals above 255 reaches: nothing has been thrown, memory differs from the loaded image in process offsets 0..255 at most (code from offset 30002 on is intact), SP and the layout have not moved, and a running counter is on an instruction boundary |
| EndToEnd.OnlyOneFits | custom-isa-8bit-vm/include/Loader.hpp:19-23 | A compiled program takes more than half of the managed memory: on any host that has one loaded, loading another fails and changes nothing |
| WideLoops.NarrowIsNotNecessary | custom-isa-8bit-vm/src/Assembler.cpp:46-47 | With loops a numeral above 255 can be harmless: an opening bracket, any positive multiple of 256 plus signs and a closing bracket have one in their assembly and are compiled correctly. The jump over the loop lands on the last byte of the numeral, which is 0 and runs as NOP |
| TextLimits.NarrowExact | custom-isa-8bit-vm/src/Brainfvck.cpp:157-241 | Exactly when the assembly of a balanced text has no numeral above 255, loops included: lines outside replaced loops have none, and the replaced bodies have small gaps between the offsets that they change and small net changes |
| EndToEnd.LoaderGivesJustLoaded | custom-isa-8bit-vm/include/Loader.hpp:14-46 | The memory and process that loading leaves are the starting point of the theorems above |
| Toolchain.CompileAndRun | custom-isa-8bit-vm/src/main.cpp:48-57 | The whole tool on a text, as one method over compiler, loader and machine: which exception the compiler throws, iff; the loader throws iff the bytes do not fit; without numerals above 255 nothing else is thrown, a process that has halted shows what the program ends with, and if the program ends, that is found after enough rounds |
| TextLimits.TextIsCompiledCorrectly | custom-isa-8bit-vm/src/Brainfvck.cpp:286-356 | CompilerIsCorrect under a condition that can be read off the text: wherever a run of equal-kind steps ends its net count is at most 255, and a loop body without loops has at most 255 commands |
| TextLimits.TextIsNarrow | custom-isa-8bit-vm/src/Brainfvck.cpp:157-241 | That condition on the text excludes numerals above 255 from the assembly: folded counts, net changes, offsets and gaps between offsets are all bounded by it |
| TextLimits.ShortTextIsNarrow | custom-isa-8bit-vm/src/Brainfvck.cpp:157-356 | The simplest such condition: nowhere more than 255 commands between two brackets |
| TextLimits.FoldedNarrow | custom-isa-8bit-vm/src/Brainfvck.cpp:286-356 | For every balanced text, loops included: run folding writes no numeral above 255 iff all runs in the text are small, where a run that has cancelled out stays open |
| TextLimits.FlatTextExact | custom-isa-8bit-vm/src/Brainfvck.cpp:286-356 | A text without brackets is compiled correctly iff all its runs are small: an exact condition on the text |
| TextLimits.StickyRun | custom-isa-8bit-vm/src/Brainfvck.cpp:297-298 | The mode that flush leaves on: a cancelled pair of moves in front of any number of plus signs keeps all numerals small |
| Limits.LoopFreeExact | custom-isa-8bit-vm/src/VM.cpp:215-220 | The condition on numerals is exact for texts without loops: process and program agree on every outcome iff no numeral in the assembly is above 255 |
| Limits.WideAtTopExact | custom-isa-8bit-vm/src/Brainfvck.cpp:286-356 | Also with loops: when the first numeral above 255 stands outside every loop, process and program agree on every outcome iff the program never ends |
| Limits.WideAtTopNeverHalts | custom-isa-8bit-vm/src/VM.cpp:44-64 | A process compiled from such a text never halts, whatever its loops do |
| Limits.PlusesExact | custom-isa-8bit-vm/src/Brainfvck.cpp:297-306 | Concrete failing family: k plus signs are compiled correctly iff k <= 255; from 256 on the process throws |
| Refinement.WideRunThrows | custom-isa-8bit-vm/src/VM.cpp:44-64 | In any program of the subset, a run that arrives at the first line with a numeral above 255, a CMP included, throws the unknown-type exception there |
| Refinement.BytesUpTo | custom-isa-8bit-vm/src/VM.cpp:171-349 | As long as the labelled machine has not arrived at the first such line, every state of the byte machine is the image of one of its states |
| Compiler.Compile | custom-isa-8bit-vm/src/Brainfvck.cpp:15-101 | compile throws on an unmatched closing bracket iff some prefix closes more than it opens, on an unmatched opening one iff brackets stay open, and otherwise yields exactly the assembled bytes of the optimised program; assembling its own output never fails |
| Compiler.PassesCompose | custom-isa-8bit-vm/src/Brainfvck.cpp:96-97 | Both text passes applied to the generated text give the flattened optimised tree inside an unchanged prologue and HALT |
| Compiler.OptimisedFollows | custom-isa-8bit-vm/src/Brainfvck.cpp:96-97 | If the Brainfuck program ends, the fully optimised structured code ends with the same observable state, from any machine state |
| Compiler.OptimisedHalts | custom-isa-8bit-vm/src/Brainfvck.cpp:96-97 | If the optimised code ends, the Brainfuck program ends, with the same observable state |
| Compiler.FramedIsRunnable | custom-isa-8bit-vm/src/Brainfvck.cpp:135-136 | After all passes every line is in the supported instruction set and every surviving jump still has its label |
| Translate.TranslateText | custom-isa-8bit-vm/src/Brainfvck.cpp:26-94 | The scanning loop: which exception it throws, iff; for balanced text, the lines are the prologue, the flattened loop tree with numbered label pairs, and HALT |
| Translate.ScanDepth | custom-isa-8bit-vm/src/Brainfvck.cpp:67-93 | The bracket stack reports a stray closing bracket iff a prefix of the text dips below the brackets open so far; otherwise it is as deep as the nesting |
| Translate.EmitText | custom-isa-8bit-vm/src/Brainfvck.cpp:53-84 | Scanning the text of a program appends its flattened tree, advances the loop counter by its number of loops and leaves the bracket stack unchanged, in any surrounding state |
| Translate.TreeMeans | custom-isa-8bit-vm/src/Brainfvck.cpp:28-84 | The structured code runs exactly like the interpreter: with the same fuel it ends iff the program ends, with the same tape, pointer, input and output |
| Translate.TreeIsDistinct | custom-isa-8bit-vm/src/Brainfvck.cpp:54-55 | Label pairs get unique consecutive numbers |
| Source.Parse | custom-isa-8bit-vm/src/Brainfvck.cpp:53-93 | Reading a program from text is inverse to printing it, stops only at a stray closing bracket, and fails only when brackets stay open |
| Source.TextInjective | custom-isa-8bit-vm/src/Brainfvck.cpp:28-88 | A balanced text denotes exactly one program |
| Source.ProgramOfText | custom-isa-8bit-vm/src/Brainfvck.cpp:28-88 | And every program has a text, which is balanced and denotes it |
| Brainfuck.TerminatesOnce | custom-isa-8bit-vm/src/Brainfvck.cpp:28-88 | The reference semantics is deterministic |
| Commands.CharacterLines | custom-isa-8bit-vm/src/Brainfvck.cpp:28-52 | Which line each of the six command characters appends, written out |
| Commands.OtherCharacters | custom-isa-8bit-vm/src/Brainfvck.cpp:29-86 | Those characters change nothing else, and every character that is none of the eight is a comment |
| Commands.BracketLines | custom-isa-8bit-vm/src/Brainfvck.cpp:53-84 | Which label, test and jump each bracket appends, with fresh numbers from a counter, matched by a stack |
| Commands.OneStep | custom-isa-8bit-vm/src/Brainfvck.cpp:28-44 | The texts of one step, run from any world: what each changes on tape and pointer, and that it changes nothing else |
| Commands.OneTransfer | custom-isa-8bit-vm/src/Brainfvck.cpp:45-52 | A dot appends the current cell to the output; a comma puts the first number, modulo 256, into the current cell, or 0 when there is none; nothing else changes |
| Commands.InputInOrder | custom-isa-8bit-vm/src/VM.cpp:278-282 | Over every run of the interpreter, finished or cut off, the k-th reading command stores number k of the input modulo 256, and 0 behind the end; a run that ends has used up as many numbers as it has read, or all |
| Commands.EchoPrints | custom-isa-8bit-vm/src/VM.cpp:278-282 | n times a comma and a dot print the first n numbers modulo 256 and leave the others unread |
| Listings.EchoProcess | custom-isa-8bit-vm/src/Brainfvck.cpp:15-101 | The same of the process: the compiled binary, loaded anywhere, halts with that output and that input left |
| Listings.ClearListing | custom-isa-8bit-vm/src/Brainfvck.cpp:263-267 | The assembly of the clear loop, whole: reservation, entry point, `MOV A, 2`, `MOV [A], 0`, HALT |
| Listings.ClearBytes | custom-isa-8bit-vm/src/Assembler.cpp:232-299 | Its binary, byte by byte |
| CodeTrees.FlatFollows | custom-isa-8bit-vm/src/Brainfvck.cpp:53-84 | A structured run that ends is a run of the label/CMP/JE/JNE text from the first line of the code to its end, on the whole machine state including flags, at any position in any program |
| CodeTrees.FlatHaltsThrough | custom-isa-8bit-vm/src/Brainfvck.cpp:53-84 | A flat run that halts has passed the end of every loop it was placed in and did there what the nested loops do: flat code terminates only if the loops do |
| CodeTrees.FlattenPlaces | custom-isa-8bit-vm/src/Brainfvck.cpp:57-81 | Code with distinct loop numbers, laid out in a program that uses their labels nowhere else, has every jump resolved to its own loop |
| FoldRuns.ApplyOptimizations | custom-isa-8bit-vm/src/Brainfvck.cpp:286-356 | The pass as a loop over lines with its two mode flags and counter, equal to the recursive fold |
| StepRuns.RunFolds | custom-isa-8bit-vm/src/Brainfvck.cpp:319-352 | A run of lines that begin with ADD or SUB and the same operand becomes one line with the number of the ADDs less that of the SUBs, whatever numerals follow; the line that ends it is kept uncounted and folding begins anew |
| FoldRuns.FoldMeans | custom-isa-8bit-vm/src/Brainfvck.cpp:286-356 | Folded code does, from any state and with the same fuel, exactly what the original code does after the pending effect: on the whole machine state, including pass states with a mode on and nothing pending |
| FoldRuns.StepMeans | custom-isa-8bit-vm/src/Brainfvck.cpp:319-352 | At each line, the emitted prefix followed by the pending count has the effect of the input prefix, modulo 256 |
| FoldRuns.FoldFlattens | custom-isa-8bit-vm/src/Brainfvck.cpp:319-355 | The pass on text is the pass on loop trees: runs never cross a label, in any context |
| FoldRuns.FoldTreeIsFlushed | custom-isa-8bit-vm/src/Brainfvck.cpp:296-317 | Nothing is pending at the end of a block, although a mode may still be on |
| FoldRuns.FoldKeepsLoops | custom-isa-8bit-vm/src/Brainfvck.cpp:319-355 | Folding keeps all loops and their numbers |
| LoopPass.TryParseLoop | custom-isa-8bit-vm/src/Brainfvck.cpp:128-155 | The scan for a loop returns its number, the first matching close label and the lines between, or nothing, as specified by index |
| Recognition.ParseExact | custom-isa-8bit-vm/src/Brainfvck.cpp:128-155 | A loop is found iff its three opening lines stand there with four lines behind them and the three closing lines begin at the first mark that closes its number |
| LoopPass.TryAnalyzeMultBody | custom-isa-8bit-vm/src/Brainfvck.cpp:157-197 | The analysis loop equals the recursive tally of net changes per offset, with its four reasons to refuse |
| Recognition.AnalyseExact | custom-isa-8bit-vm/src/Brainfvck.cpp:157-197 | A body passes iff it only moves and adds numerals, comes back to where it started, lowers its own cell by one in sum and adds to some other cell; the result has one entry for every other cell it adds to, with the sum over all lines that do |
| Recognition.ReplacedExact | custom-isa-8bit-vm/src/Brainfvck.cpp:263-275 | A loop is replaced iff its body begins by lowering the cell by one, and is that line alone or passes the analysis |
| LoopPass.EmitMulReplacement | custom-isa-8bit-vm/src/Brainfvck.cpp:199-241 | The emission loop appends exactly the multiply code for the changes in offset order |
| LoopPass.SortModsSorts | custom-isa-8bit-vm/src/Brainfvck.cpp:205-206 | Sorting yields an ordered permutation of the changes |
| LoopPass.ApplyLoopOptimizations | custom-isa-8bit-vm/src/Brainfvck.cpp:243-284 | The pass as a loop over lines equals its specification from index 0 |
| MultiplyLoops.RoundMeans | custom-isa-8bit-vm/src/Brainfvck.cpp:157-183 | One round of an accepted body adds its tallied changes around the current cell, modulo 256 and on the ring, and restores A, for any order and sign of offsets |
| MultiplyLoops.ReplacementMeans | custom-isa-8bit-vm/src/Brainfvck.cpp:199-241 | From any state, the emitted code clears the cell and adds v times each change at its offset, where v is the cell value; A and all other cells are as before |
| LoopTrees.LoopRuns | custom-isa-8bit-vm/src/Brainfvck.cpp:263-275 | A replaced loop entered with cell value v runs exactly v rounds, and ends with every change added v times; with less fuel it is still running |
| LoopTrees.ReplacementExact | custom-isa-8bit-vm/src/Brainfvck.cpp:188-191 | Replacement and loop agree in every state iff the net change of the loop cell on the ring is -1 modulo 256, that is, iff the changes at other multiples of 256 cancel out |
| LoopTrees.FarBodyFails | custom-isa-8bit-vm/src/Brainfvck.cpp:157-241 | A concrete loop that the pass replaces although the replacement is wrong in some state: it also counts up 256 cells away, which is its own cell |
| Limits.FarBodyIsFolded | custom-isa-8bit-vm/src/Brainfvck.cpp:286-356 | That loop is what run folding makes of a minus, 256 times right, a plus and 256 times left |
| NarrowLoops.NarrowIsSafe | custom-isa-8bit-vm/src/Brainfvck.cpp:208-240 | If the optimised code has no numeral above 255, every replacement in it meets that condition |
| LoopTrees.OptFollows | custom-isa-8bit-vm/src/Brainfvck.cpp:243-284 | The pass in arbitrary surrounding code, forwards: where the original code ends the optimised code ends with the same tape, A, input and output, from any B, C and flags on either side |
| LoopTrees.OptHalts | custom-isa-8bit-vm/src/Brainfvck.cpp:243-284 | The pass in arbitrary surrounding code, backwards: where the optimised code ends, the original code ends with the same observable state |
| LoopTrees.OptimiseFlattens | custom-isa-8bit-vm/src/Brainfvck.cpp:256-279 | On a placed tree the pass on text is the pass on trees, nested loops included, and scanning goes on right behind it |
| LoopTrees.OptKeepsLoops | custom-isa-8bit-vm/src/Brainfvck.cpp:256-279 | Loops disappear together with their labels; the numbers of the others stay unique |
| Assembler.AsmToOpcodes | custom-isa-8bit-vm/src/Assembler.cpp:146-299 | Both passes: an unknown instruction throws iff some line is not in the table; otherwise a missing label throws iff some used label is undefined, and the exception names such a label; otherwise the bytes are header plus encoded lines |
| Assembler.PassOne | custom-isa-8bit-vm/src/Assembler.cpp:152-230 | The first loop computes, for exactly the defined labels, the planned address of the definition that counts |
| Assembler.InstructionToOpcode | custom-isa-8bit-vm/src/Assembler.cpp:32-144 | One instruction: opcode, type bytes and big-endian or one-byte values, negative numerals truncated; throws iff a label is undefined |
| Assembler.LayoutDrift | custom-isa-8bit-vm/src/Assembler.cpp:213-223 | Before any line, pass two has written exactly one byte more than pass one planned for every numeral above 255 |
| Assembler.LabelExact | custom-isa-8bit-vm/src/Assembler.cpp:238-240 | A label in a program below 2^16 bytes gets the address where its code lands iff no numeral above 255 precedes it |
| Assembler.AssembleRoundTrip | custom-isa-8bit-vm/src/Assembler.cpp:88-143 | A linear sweep over the assembled bytes recovers the program: opcodes, operand types and values of every type and width, with reserved areas as NOPs |
| Isa.OpcodeArity | custom-isa-8bit-vm/src/main.cpp:13-37 | The machine fetches as many operands as the assembler wrote for each table entry, and opcodes are unique |
| Lines.CoveredCode | custom-isa-8bit-vm/src/main.cpp:13-37 | The instruction table: which mnemonics with how many operands are in it, with which opcode, and nothing else |
| Lines.NumeralBytes | custom-isa-8bit-vm/src/Assembler.cpp:43-48 | The bytes of numerals (up to 255, above, negative) and of bracketed numbers |
| Lines.NameBytes | custom-isa-8bit-vm/src/Assembler.cpp:55-77 | The bytes of registers and labels, plain and in brackets |
| Lines.LineBytes | custom-isa-8bit-vm/src/Assembler.cpp:88-143 | Five whole lines, among them `MOV [134], A` |
| Lines.HeaderIs | custom-isa-8bit-vm/src/Assembler.cpp:237-247 | The header is where the code of `start` lands, or 2 when no line defines it, in programs without numerals above 255 |
| Lines.NeededLabels | custom-isa-8bit-vm/src/Assembler.cpp:98-107 | A used label has to be defined by a line, except `start`, which looking up the header has defined as 0 |
| Lines.RoundOrNot | custom-isa-8bit-vm/src/VM.cpp:171-181 | Rounds happen while the process runs and its counter is in front of the end of its code; outside nothing changes any more |
| Lines.ResolveFinds | custom-isa-8bit-vm/src/VM.cpp:44-64 | The location that an encoded operand resolves to is the place that the operand as written denotes: a register, the cell behind a register, a number or a label, or the byte at a label |
| Lines.RoundMeans | custom-isa-8bit-vm/src/VM.cpp:171-735 | A round at the bytes of any line of the instruction set, with operands of every kind, gives exactly the state, or throws exactly the exception, that the line as written means. The meaning names neither type bytes nor decoding |
| Lines.ProgramLine | custom-isa-8bit-vm/src/VM.cpp:171-735 | So for every line of an assembled program in memory, at the place where it lands |
| Lines.NoInstruction | custom-isa-8bit-vm/src/VM.cpp:702-705 | A byte that is no opcode of the table throws |
| Lines.UnknownTypes | custom-isa-8bit-vm/src/VM.cpp:44-85 | A type byte above 6 has no value bytes, cannot be read and cannot be stored to |
| Refinement.BytesFollowLines | custom-isa-8bit-vm/src/VM.cpp:171-349 | Every state that the byte machine reaches is the image of a state of the labelled machine: counter at the byte offset of its line, memory changed in 256 cells at most |
| Refinement.LinesFollowBytes | custom-isa-8bit-vm/src/VM.cpp:171-349 | Every state that the labelled machine reaches is reached on bytes; with numerals above 255 present, still on runs that stay before the first of them |
| Refinement.InstructionStep | custom-isa-8bit-vm/src/VM.cpp:171-349 | One instruction of the labelled machine is one round of the byte machine |
| Refinement.PlainSame | custom-isa-8bit-vm/src/VM.cpp:182-317 | MOV, ADD, SUB, MUL, CMP, PRINT, INPUT and NOP do on encoded operands what they do on the labelled machine |
| Refinement.WideThrows | custom-isa-8bit-vm/src/VM.cpp:187-317 | Every computing instruction with a numeral above 255 throws; CMP reads its first operand before one in the second |
| Machinery.VM.Exec | custom-isa-8bit-vm/src/VM.cpp:171-735 | exec for a bounded number of rounds in place equals that many steps of the specification; the running flag falls with HALT only; a process that stops without exception has its counter put back to its base, and one that was not running gets nothing else |
| Machinery.VM.Step | custom-isa-8bit-vm/src/VM.cpp:174-707 | One round: opcode fetch, operand fetches and the switch, on RAM, registers, flags and process |
| Machinery.VM.Dispatch | custom-isa-8bit-vm/src/VM.cpp:177-705 | The switch over all opcodes in headless mode |
| Streams.InputUsed | custom-isa-8bit-vm/src/VM.cpp:270-284 | After any run of the machine, exactly as many numbers are gone from the front of the input as INPUT rounds were executed, or all |
| Streams.KthRead | custom-isa-8bit-vm/src/VM.cpp:270-284 | The INPUT round that comes after k others stores number k of the initial input modulo 256 in its operand, 0 behind the end, and changes nothing else |
| Streams.OutputGrows | custom-isa-8bit-vm/src/VM.cpp:193-208 | Output is never taken back: a run appends what its PRINT and PRINTFLUSH rounds print, in order |
| Machinery.VM.ResolveWriteable | custom-isa-8bit-vm/src/VM.cpp:44-64 | The location that an operand denotes, or the exception |
| Machinery.VM.FetchArgument | custom-isa-8bit-vm/src/VM.cpp:66-85 | Type, value and advanced counter for each operand type |
| Machinery.VM.FetchArguments | custom-isa-8bit-vm/src/VM.cpp:184-185 | The operands of one instruction in order |
| Machinery.VM.Assign | custom-isa-8bit-vm/src/VM.cpp:191-192 | A store through an operand |
| Machinery.VM.Combine | custom-isa-8bit-vm/src/VM.cpp:210-269 | ADD, SUB, MUL, DIV modulo 256, with division by zero throwing |
| Machinery.VM.Compare | custom-isa-8bit-vm/src/VM.cpp:298-317 | CMP sets both flags from the signed difference |
| Machinery.VM.JumpIf | custom-isa-8bit-vm/src/VM.cpp:318-381 | The four conditional jumps, which look at their operand only when taken |
| Machinery.VM.Spush | custom-isa-8bit-vm/src/VM.cpp:87-107 | SPUSH in place |
| Machinery.VM.Spop | custom-isa-8bit-vm/src/VM.cpp:109-131 | SPOP in place |
| Machinery.VM.Halloc | custom-isa-8bit-vm/src/VM.cpp:404-499 | HALLOC in place, including the store of the pointer through a cell |
| Machinery.VM.Hfree | custom-isa-8bit-vm/src/VM.cpp:500-568 | HFREE in place |
| Machinery.VM.Call | custom-isa-8bit-vm/src/VM.cpp:569-586 | CALL in place |
| Machinery.VM.Return | custom-isa-8bit-vm/src/VM.cpp:587-598 | RET in place |
| Machinery.VM.LoadProgramInRam | custom-isa-8bit-vm/src/VM.cpp:36-42 | Loading through the machine's own allocator and memory |
| Machinery.VM.Reset | custom-isa-8bit-vm/src/VM.cpp:760-767 | Registers, flags, free list and process numbers as at the start |
| Heap.HallocInPlace | custom-isa-8bit-vm/src/VM.cpp:409-494 | The search loop with header writes on the array equals first fit followed by carving |
| Heap.HfreeInPlace | custom-isa-8bit-vm/src/VM.cpp:510-566 | The status check, release and coalescing walk on the array |
| Heap.CoalesceInPlace | custom-isa-8bit-vm/src/VM.cpp:528-566 | The walk with its stationary cursor on a merge |
| HeapBlocks.HallocExact | custom-isa-8bit-vm/src/VM.cpp:420-494 | HALLOC overflows iff no free block is large enough; otherwise it gives out the payload of the lowest block that fits, splits only above request + 3, and keeps the tiling invariant |
| HeapBlocks.HallocFrame | custom-isa-8bit-vm/src/VM.cpp:440-494 | HALLOC changes no byte of an owned block and no byte outside the heap |
| HeapBytes.HallocWrites | custom-isa-8bit-vm/src/VM.cpp:420-494 | HALLOC in bytes: which block it takes, iff; the owned header it writes, the free header behind it when more than a header is left over, and that no other byte changes |
| HeapBytes.HfreeReads | custom-isa-8bit-vm/src/VM.cpp:500-526 | HFREE throws iff the byte in front of the pointer is not 1; else that byte becomes 0 and the joining walk starts from there |
| HeapBlocks.FirstFitChain | custom-isa-8bit-vm/src/VM.cpp:422-493 | On a well-formed chain the header walk finds exactly the first fitting block, and overflows iff there is none |
| HeapBlocks.HeadersBelowLimit | custom-isa-8bit-vm/src/VM.cpp:424-428 | Every header lies below the heap limit, so no block is missed |
| HeapBlocks.ChainUnique | custom-isa-8bit-vm/src/VM.cpp:430-437 | Memory determines the blocks |
| HeapRuns.CoalesceChain | custom-isa-8bit-vm/src/VM.cpp:528-566 | On any well-formed chain the walk ends, computes the block merge, and changes only size bytes in headers of free blocks |
| HeapRuns.MergeKeeps | custom-isa-8bit-vm/src/VM.cpp:552-565 | Merging keeps total size and allocated regions and leaves no two free neighbours |
| HeapRuns.HfreeExact | custom-isa-8bit-vm/src/VM.cpp:500-568 | HFREE of an allocated region succeeds, takes exactly that region away, keeps the invariant and every byte of other owned blocks; an immediate second HFREE of the pointer throws |
| HeapRuns.LayoutUnique | custom-isa-8bit-vm/src/VM.cpp:552-565 | The block layout is determined by extent and allocated regions |
| HeapRuns.FreeUndoesAlloc | custom-isa-8bit-vm/src/VM.cpp:404-568 | HFREE of what HALLOC returned restores the identical block layout |
| HeapRuns.AllFreed | custom-isa-8bit-vm/src/VM.cpp:552-565 | With nothing allocated the heap is a single free block |
| HeapRuns.RunKeeps | custom-isa-8bit-vm/src/VM.cpp:404-568 | Over every run of requests, releases of held regions and writes into held payloads, headers tile the heap exactly and describe exactly the held regions |
| HeapRuns.RunKeepsData | custom-isa-8bit-vm/src/VM.cpp:404-568 | Over every such run, a held region that is not released stays held, and each of its bytes holds what was last written there |
| HeapRuns.RunToEmpty | custom-isa-8bit-vm/src/VM.cpp:404-568 | A run that gives back everything, in any order, ends with one free block |
| HeapRuns.LiveDisjoint | custom-isa-8bit-vm/src/VM.cpp:404-568 | Held regions never overlap each other or a header |
| HeapInstructions.AllocInstruction | custom-isa-8bit-vm/src/VM.cpp:404-499 | HALLOC with any size operand and any destination: it throws what reading the size throws, overflows iff nothing fits, throws what the destination throws, and otherwise stores the low byte of the pointer, hence the pointer iff it is below 256; unless the destination is a byte of a header, the heap is the carved one |
| HeapInstructions.PointerLost | custom-isa-8bit-vm/src/VM.cpp:495-497 | With a heap that starts at 253 or above, what HALLOC stores, wherever it does, is never the address of any region |
| HeapInstructions.UsablePointers | custom-isa-8bit-vm/src/VM.cpp:495-497 | From loading on, some run of the heap holds a region whose pointer fits a cell iff the base address plus the code size is below 253 |
| HeapInstructions.FreeThroughOperand | custom-isa-8bit-vm/src/VM.cpp:495-515 | For pointers below 256, HFREE through the same register or cell, payload cells included, restores the layout before HALLOC |
| HeapInstructions.LoadedIsSound | custom-isa-8bit-vm/include/Loader.hpp:38-43 | A loaded process starts with nothing allocated and blocks covering 1003 bytes |
| HeapInstructions.LoadedRunToEmpty | custom-isa-8bit-vm/include/Loader.hpp:38-43 | From loading on, every run that ends with nothing held ends with the free block of 1000 bytes |
| Lifo.RunRefines | custom-isa-8bit-vm/src/VM.cpp:87-131 | Over every run that throws nothing and does not write into the used stack behind its back, the bytes on the stack are those of an abstract stack to which each SPUSH, SPOP, CALL and RET is one push or pop |
| Lifo.RunReceives | custom-isa-8bit-vm/src/VM.cpp:569-598 | At every point of such a run, SPOP stores and RET returns to what that abstract stack has on top |
| Lifo.RunErrors | custom-isa-8bit-vm/src/VM.cpp:87-131 | At every point of such a run, the next round underflows iff the abstract stack has too few bytes, and overflows iff they would exceed the space |
| ProcessRuns.RunKeepsBoth | custom-isa-8bit-vm/src/VM.cpp:87-131 | Heap and stack together, over whole runs on bytes: when stores avoid headers and the used stack, pushes stay 2 bytes above the heap limit and HFREE gets pointers of held regions, the headers go on tiling the heap, and the stack is the abstract one |
| ProcessRuns.LoadedRunKeepsBoth | custom-isa-8bit-vm/include/Loader.hpp:38-43 | The same from loading on, where the heap is one free block and the abstract stack is empty |
| ProcessRuns.LoadedRunRefines | custom-isa-8bit-vm/include/Process.hpp:36-41 | From loading on, the bytes on the stack are those of an abstract stack that starts empty |
| HeapAndStack.ElsewhereIsTame | custom-isa-8bit-vm/src/VM.cpp:87-131 | The premise of these runs from where each instruction writes: destination not on the used stack, HALLOC and HFREE on a heap that the stack does not touch |
| Stack.RunInRange | custom-isa-8bit-vm/src/VM.cpp:87-131 | Over every run of any instructions that throws nothing, SP stays within its limits |
| Stack.PushExact | custom-isa-8bit-vm/src/VM.cpp:87-107 | SPUSH puts two bytes, a zero and the cell, on top for an address, a bracketed number and a bracketed label, and the cell alone otherwise; it overflows iff they do not fit, and changes nothing else |
| Stack.PopExact | custom-isa-8bit-vm/src/VM.cpp:109-131 | SPOP takes two bytes off for an address, a bracketed number and a bracketed label, and one otherwise; it underflows iff there are fewer; a destination outside the remaining stack gets the last one of them |
| Stack.BalancedKeepsStack | custom-isa-8bit-vm/src/VM.cpp:382-403 | Well-bracketed execution leaves stack pointer and stack bytes as it found them, at any nesting depth |
| Stack.CallReturns | custom-isa-8bit-vm/src/VM.cpp:569-598 | A CALL with a balanced body returns to the instruction behind it with SP and all stack bytes restored |
| Stack.CallArrives | custom-isa-8bit-vm/src/VM.cpp:584-584 | CALL arrives at its label iff the process lies at address 0, unlike JMP |
| Stack.CallOfLabel | custom-isa-8bit-vm/src/VM.cpp:295-295 | With a label of an assembled program: JMP goes to the place in memory where its code lies, CALL only iff the process lies at address 0 |
| Stack.CallInSecondProgram | custom-isa-8bit-vm/src/VM.cpp:584-584 | In the second of two loaded programs no CALL arrives at its label |
| FreeList.MemoryManager.Allocate | custom-isa-8bit-vm/src/MemoryManager.cpp:10-34 | The search loop on the list in place |
| FreeList.MemoryManager.Free | custom-isa-8bit-vm/src/MemoryManager.cpp:36-73 | Insertion and joining with neighbours in place |
| FreeList.MemoryManager.CheckIntegrity | custom-isa-8bit-vm/src/MemoryManager.cpp:75-95 | True iff no range reaches beyond the beginning of any later one |
| FreeList.MemoryManager.Reset | custom-isa-8bit-vm/src/MemoryManager.cpp:97-100 | The list is one range of all managed memory |
| FreeList.AllocateExact | custom-isa-8bit-vm/src/MemoryManager.cpp:10-34 | On a canonical list a request of positive size fails iff no n consecutive addresses are free; otherwise it returns the lowest such place and removes exactly that interval, and the list stays canonical |
| FreeList.AllocateNothing | custom-isa-8bit-vm/src/MemoryManager.cpp:10-34 | A request for nothing fails iff no address is free at all, and leaves the list as it was |
| FreeList.FreeExact | custom-isa-8bit-vm/src/MemoryManager.cpp:36-73 | Freeing addresses that are not free adds exactly them, and the list stays canonical |
| FreeList.CanonicalUnique | custom-isa-8bit-vm/src/MemoryManager.cpp:36-73 | There is one canonical list for a set of free addresses |
| FreeList.OrderedIsApart | custom-isa-8bit-vm/src/MemoryManager.cpp:84-93 | It is enough that the check compares neighbours: then any two ranges are in order and do not overlap |
| FreeList.CanonicalIsOrdered | custom-isa-8bit-vm/src/MemoryManager.cpp:75-95 | Canonical lists pass the integrity check |
| FreeList.FreeUndoesAllocate | custom-isa-8bit-vm/src/MemoryManager.cpp:10-73 | free of what allocate returned gives back the identical list, for requests of any size, empty ones included |
| FreeList.FreeNothing | custom-isa-8bit-vm/src/MemoryManager.cpp:36-73 | Freeing an empty region keeps a canonical list canonical, and then unchanged, iff it touches a free range |
| FreeList.EmptyRegionBreaks | custom-isa-8bit-vm/src/MemoryManager.cpp:10-73 | Concrete failure: allocate 0, allocate 10, free the empty region; the list has an empty range |
| FreeList.RunKeeps | custom-isa-8bit-vm/src/MemoryManager.cpp:10-73 | Over every run of allocations of positive size and releases of allocated regions, the list stays canonical, and free ranges and live regions partition the managed memory |
| FreeList.RunToEmpty | custom-isa-8bit-vm/src/MemoryManager.cpp:10-73 | Releasing everything in any order restores the initial list |
| Loader.Process.constructor | custom-isa-8bit-vm/include/Process.hpp:26-42 | The layout fields in 16-bit arithmetic |
| Loader.LayoutExact | custom-isa-8bit-vm/include/Process.hpp:26-42 | Inside managed memory, code, heap and stack follow each other without gap and fill exactly the region |
| HeapBytes.LayoutNumbers | custom-isa-8bit-vm/include/VMconf.hpp:7-13 | The same in numbers: 1000 bytes of heap and 1000 of stack behind the code, in 59903 managed bytes |
| HeapBytes.LoadedBytes | custom-isa-8bit-vm/include/Loader.hpp:25-43 | Loading writes the code and right behind it the header of a free block of 1000 bytes, and no other byte |
| HeapAndStack.PushSafeExact | custom-isa-8bit-vm/src/VM.cpp:87-107 | Exactly when an SPUSH of one or two bytes keeps every heap a heap: it has to end 2 bytes above the heap limit, while the stack limit allows it down to the heap limit |
| HeapAndStack.PushKeepsHeap | custom-isa-8bit-vm/src/VM.cpp:87-107 | SPUSH and CALL that end there or higher keep the heap of the process |
| HeapAndStack.PushBytesKeepsHeap | custom-isa-8bit-vm/src/VM.cpp:87-107 | A push that ends 3 bytes above the heap limit or higher changes no byte of the chain |
| HeapAndStack.PushSmashesHeap | custom-isa-8bit-vm/src/VM.cpp:87-107 | With a last block of one byte, a push that SPUSH allows overwrites its header: memory is no well-formed heap any more |
| HeapAndStack.TinyBlockIsReached | custom-isa-8bit-vm/include/Loader.hpp:38-43 | Four HALLOCs on a fresh heap lead to such a block |
| HeapAndStack.AllocSafeExact | custom-isa-8bit-vm/src/VM.cpp:404-499 | Exactly when HALLOC leaves every stack alone, whatever the heap holds and whatever size is asked for: SP has to be 2 bytes above the heap limit |
| HeapAndStack.FreeSafeExact | custom-isa-8bit-vm/src/VM.cpp:500-568 | Exactly when HFREE of a held region leaves every stack alone: the same bound |
| HeapAndStack.AllocKeepsStack | custom-isa-8bit-vm/src/VM.cpp:404-499 | With SP 2 bytes above the heap limit, HALLOC leaves every byte on the stack alone |
| HeapAndStack.FreeKeepsStack | custom-isa-8bit-vm/src/VM.cpp:500-568 | And so does HFREE of a held region |
| HeapAndStack.AllocSmashesStack | custom-isa-8bit-vm/src/VM.cpp:441-470 | Lower down, a HALLOC that splits off a last block of one byte overwrites a pushed byte |
| HeapAndStack.FreeSmashesStack | custom-isa-8bit-vm/src/VM.cpp:521-526 | Lower down, HFREE of an owned last block of one byte changes its status byte on the stack |
| HeapRuns.HfreeAbove | custom-isa-8bit-vm/src/VM.cpp:528-566 | HFREE of a held region leaves a FREE status in front of it and changes nothing from 2 bytes above the heap limit on |
| Loader.SecondProgram | custom-isa-8bit-vm/include/Loader.hpp:14-46 | Of two programs the first is loaded at address 0, the second right behind it |
| Loader.ProgramLoader.LoadProgram | custom-isa-8bit-vm/include/Loader.hpp:14-46 | Allocation, copy, entry point read from the copied code, process, and the heap header last; a failed allocation changes nothing |
| Loader.LoadedHeap | custom-isa-8bit-vm/include/Loader.hpp:38-43 | The header written by the loader is a well-formed heap of one free block |
| Loader.LoadKeeps | custom-isa-8bit-vm/include/Loader.hpp:14-46 | Loading one more program keeps all processes disjoint, their code and their heaps intact |
| Loader.LoadAllKeeps | custom-isa-8bit-vm/include/Loader.hpp:14-46 | Any sequence of loads keeps processes pairwise disjoint, with their code and heaps in place |
| Loader.LoadedApart | custom-isa-8bit-vm/include/Loader.hpp:14-46 | So on a fresh host any sequence of programs gives pairwise disjoint processes, none containing the interface byte or the framebuffer |

## Left out

- Text level of the assembler and of the passes: lines are parsed (mnemonic, operands, labels); tokenising, comments, blank lines and number syntax are not modelled, and labels of loops are numbers rather than decimal strings.
- 32-bit overflow of the counters in the Brainfuck passes, and numerals that do not fit an `int`.
- Graphical mode: FBSET, FBSYNC, windows and keys. The machine is headless, as `main` sets it; there FBSET throws and FBSYNC is undefined. A program that writes the interface byte in RAM to switch modes while it runs is not modelled.
- Files and console: source text, bytecode, input and output are sequences. Input numbers that do not fit an `int` are not modelled.
- Wording and line numbers of exception messages; `register_snapshot` and the messages at the end of `exec`.
- `Process::update`, which is unused and marked unfinished.
- Machinery.VM.Exec: runs a given number of rounds, because termination of programs is not decidable; memory after an access outside the source's vectors is unspecified.
- Machinery.VM.Step: memory and process after an undefined access are unspecified, only the status is given.
- Machinery.VM.Dispatch: as for Step.
- Machinery.VM.Halloc: memory after a walk over a corrupt heap is unspecified, because the source's walk need not end.
- Machinery.VM.Hfree: memory after a walk over a corrupt heap is unspecified, because the source's walk need not end.
- Heap.HallocInPlace: a cursor that would wrap around 16 bits stops the model, where the source would go on reading; only corrupt heaps lead there.
- Heap.HfreeInPlace: the same, and freeing something that is not a block start is not characterised beyond its status byte.
- Refinement.BytesFollowLines: covers the instructions that reach memory through registers only (with JMP, JE, JNE, JG, JNG and HALT), which include everything the compiler writes; programs begin with a reservation that covers the 256 cells, and contain no further one. Single rounds at every other instruction and operand are covered by `Lines.RoundMeans`.
- Lines.RoundMeans: of a round that throws, only the exception is stated; the counter must not pass 65535 within the line, which memory of 64000 bytes rules out.
- EndToEnd.CompilerIsCorrect: needs the assembly to have no numeral above 255; with loops present this is sufficient, not necessary, because whether a run arrives at such a numeral cannot be told from the text. What happens on runs is stated for both sides: `Refinement.BytesUpTo` and `Refinement.LinesFollowBytes` before the first such line, `Refinement.WideRunThrows` at it. Left open is only a run that jumps over it: it then lands as many bytes in front of the label as there are such numerals, and runs those bytes (`WideLoops.NarrowIsNotNecessary` follows one such run).
- Stack.BalancedKeepsStack: asks of each instruction between stack operations that it does not write into the used stack; which addresses a program computes is up to the program. `HeapAndStack.ElsewhereIsTame` gives this from the destinations of the instructions.
- HeapInstructions.AllocInstruction: says nothing about the heap when the destination is a byte of a header.
- Lifo.RunRefines: asks the same of each instruction, and of SPOP that its destination is not on the rest of the stack.
- Toolchain.CompileAndRun: runs a given number of rounds.
- FreeList.RunKeeps: runs with requests of size 0 are left out, because the list then does not stay canonical (`FreeList.EmptyRegionBreaks`); when it does is stated by `FreeList.AllocateNothing` and `FreeList.FreeNothing`.
