# ana-language bytecode toolchain, modelled in Dafny

This project models the stack-bytecode toolchain of the ana language. It covers these parts:

- **Instruction set:** the 27 operations, their names and their documented stack effects.
- **Front end:**
  - the lexer;
  - the semantic checker's scopes and type rules;
  - the lowering of the syntax tree to bytecode, which appends to an instruction sequence threaded through the visitor;
  - the append-only bytecode builder class, modelled on its own.
- **Optimizer:** the dead-code eliminator working over a boolean mask.
- **Virtual machine:**
  - its loader (`ReadFunctions`) and execution loop with every instruction handler;
  - the first-fit heap the machine allocates arrays from.
- **Collectors:** the two small collector structures of the native back ends.

The model keeps the source's own form:

- Code that changes state step by step is imperative Dafny:
  - The heap is a class over an `array<Cell>`.
  - The machine is a class whose fields are the call stack, counter, flags, heap and function table.
  - The optimizer's passes are methods that clear an `array<bool>` mask in loops.
  - The builder, the lexer, the scopes and both collectors are classes.
- Each method's `ensures` ties its result or its new state to a pure function of the old state:
  - `Heap.Allocate`, `MachineSpec.Exec`, `OptimizerSpec.Compact`, `Lexer.Scan`, `JitGc.Survivors`, …
- The lemmas beside those functions state what the source promises:
  - first fit and read-after-write;
  - the documented stack effects and the call/return round trip;
  - order preservation and reachability;
  - maximal munch;
  - the typing and scoping rules;
  - the value a lowered comparison leaves on the stack.
- The bytecode generator and the semantic checker are recursive visitors that thread their state (builder, label counter, type map, scopes, last type). They are modelled as recursive functions over a state value.

Modules:

| file | module | what it models |
|---|---|---|
| basics.dfy | Basics | `Option`, the `int64_t` range |
| decimal.dfy | Decimal | `std::to_string` of counters and `std::stoll` |
| bytecode.dfy | Bytecode | the `Operation` enumeration, `ConvertOperationToString`, documented stack effects |
| bytecode_builder.dfy | BytecodeBuilder | the instruction builder |
| heap.dfy | Heap | the machine's heap |
| machine_spec.dfy | MachineSpec | the machine state, the loader and the per-instruction effects as functions |
| vm.dfy | Machine | the `VirtualMachine` class |
| optimizer_spec.dfy | OptimizerSpec | stack usage, backward walks, call graph, compaction as functions |
| optimizer.dfy | Optimizer | the dead-code elimination passes |
| ast.dfy | Ast | the syntax tree the generator and the checker read |
| generator.dfy | Generator | the bytecode generator, and what its output does on the machine |
| lexer.dfy | Lexer | the lexer |
| sema.dfy | Sema | scopes and the semantic checker |
| jit_gc.dfy | JitGc | the collector used by compiled code |
| interp_gc.dfy | InterpreterGc | the interpreter back end's variable stack |

## Model

| member | source | states |
|---|---|---|
| Bytecode.OpCode | include/Bytecode/Bytecode.h:6-112 | every operation's code lies in 0..26 and decodes back to the operation |
| Bytecode.FromOpCode | include/Bytecode/Bytecode.h:6-112 | a code names an operation exactly when it is at most 26 |
| Bytecode.OpCodeInjective | include/Bytecode/Bytecode.h:6-112 | distinct operations have distinct codes |
| Bytecode.OpCodeOnto | include/Bytecode/Bytecode.h:6-112 | every code 0..26 belongs to an operation: the enumeration is closed |
| Bytecode.ConvertOperationToString | src/Bytecode/Bytecode.cpp:3-33 | the name of every operation is non-empty |
| Bytecode.ConvertOperationToStringUpperCase | src/Bytecode/Bytecode.cpp:5-31 | every name is made of capital letters and underscores only |
| Bytecode.ParseConvertOperation | src/Bytecode/Bytecode.cpp:5-31 | each operation is read back from its own name, so each name spells its operation |
| Bytecode.ConvertOperationToStringInjective | src/Bytecode/Bytecode.cpp:3-33 | distinct operations get distinct names |
| BytecodeBuilder.BytecodeBuilder.Build | src/Bytecode/BytecodeBuilder.cpp:3-5 | returns the instructions in emission order |
| BytecodeBuilder.BytecodeBuilder.EmitPlain | src/Bytecode/BytecodeBuilder.cpp:7-25 | appends exactly one instruction with no operands, earlier ones unchanged |
| BytecodeBuilder.BytecodeBuilder.EmitWithOperand | src/Bytecode/BytecodeBuilder.cpp:27-53 | appends exactly one instruction whose only operand is the argument |
| BytecodeBuilder.BytecodeBuilder.EmitFunBegin | src/Bytecode/BytecodeBuilder.cpp:63-65 | appends FUN_BEGIN with the names verbatim |
| BytecodeBuilder.BytecodeBuilder.GetLastCommand | src/Bytecode/BytecodeBuilder.cpp:115-117 | the most recently appended instruction, on a non-empty buffer |
| Decimal.DigitsValueOfNatToString | src/Bytecode/BytecodeGenerator.cpp:16-18 | the digits `std::to_string` writes for a counter read back as that counter |
| Decimal.NatToStringInjective | src/Bytecode/BytecodeGenerator.cpp:16-18 | distinct counters give distinct label names |
| Decimal.StoLL | src/VirtualMachine/VirtualMachine.cpp:156-162 | a value `std::stoll` accepts lies in the `int64_t` range |
| Decimal.StoLLOfNatToString | src/VirtualMachine/VirtualMachine.cpp:156-162 | `std::stoll` reads back every counter `std::to_string` writes |
| Heap.FirstFit | include/VirtualMachine/Heap.h:25-45 | -1 exactly when no start from `from` on begins a free run; otherwise the least start that does |
| Heap.AllocateSpec | include/VirtualMachine/Heap.h:25-45 | success returns h + 1 for the first start h of a free run of n + 1 cells. The block becomes allocated and its header holds n + 1. No other cell changes. Failure returns -1 and changes nothing, exactly when no run exists. |
| Heap.FirstFitFrom | include/VirtualMachine/Heap.h:25-45 | first fit lands on a free start when no earlier start is free |
| Heap.ReadAfterWrite | include/VirtualMachine/Heap.h:62-78 | after a write to 0 < i < size, reading i gives the value; every other address reads as before |
| Heap.WriteOnlyValue | include/VirtualMachine/Heap.h:71-78 | a write changes no allocation flag and no other cell, whether or not the cell is allocated |
| Heap.ReadZeroRejected | include/VirtualMachine/Heap.h:62-69 | address 0 always reads as -1 |
| Heap.FreeAfterAllocate | include/VirtualMachine/Heap.h:47-60 | freeing an allocated address returns the block's cells to unallocated zero cells and touches nothing else. The exception is the 0-value block in the last cell, whose address `freeMemory` rejects. |
| Heap.Heap.constructor | include/VirtualMachine/Heap.h:20-23 | every cell is unallocated with value 0 |
| Heap.Heap.AllocateMemory | include/VirtualMachine/Heap.h:25-45 | the heap and the result are those of `Allocate` on the old cells |
| Heap.Heap.FreeMemory | include/VirtualMachine/Heap.h:47-60 | the heap becomes `Free` of the old cells |
| Heap.Heap.GetValueByIndex | include/VirtualMachine/Heap.h:62-69 | the value of cell i, or -1 outside 0 < i < size |
| Heap.Heap.SetValueByIndex | include/VirtualMachine/Heap.h:71-78 | the heap becomes `Write` of the old cells |
| MachineSpec.TruncDivMod | src/VirtualMachine/VirtualMachine.cpp:132-154 | C++ division: a == q*b + r, with \|r\| < \|b\|, r taking the dividend's sign, and q truncated toward zero |
| MachineSpec.Arith | src/VirtualMachine/VirtualMachine.cpp:96-154 | a defined result lies in the `int64_t` range, and DIV or MOD by zero has none |
| MachineSpec.CmpFlagsRelations | src/VirtualMachine/VirtualMachine.cpp:245-267 | exactly one of LT, EQ, GT holds; EQ is not NE; LE is LT or EQ; GE is GT or EQ |
| MachineSpec.SetTop | src/VirtualMachine/VirtualMachine.cpp:96-154 | replacing the top frame keeps the stack depth and every other frame |
| MachineSpec.BindParams | src/VirtualMachine/VirtualMachine.cpp:339-357 | binding succeeds exactly when the stack holds a value per parameter, and leaves the values below them |
| MachineSpec.RunUnfold | src/VirtualMachine/VirtualMachine.cpp:53-94 | a run that does not fault takes one defined step at a time |
| MachineSpec.DecodeParams | src/VirtualMachine/VirtualMachine.cpp:16-24 | decoded parameters are one per (kind, name) pair |
| MachineSpec.EncodeParams | src/VirtualMachine/VirtualMachine.cpp:16-24 | two operands per parameter |
| MachineSpec.DecodeEncodeParams | src/VirtualMachine/VirtualMachine.cpp:16-24 | decoding reads back every parameter list encoding writes |
| MachineSpec.EncodeDecodeParams | src/VirtualMachine/VirtualMachine.cpp:16-24 | only operand lists that some encoding writes decode |
| MachineSpec.FirstFunBegin | src/VirtualMachine/VirtualMachine.cpp:10-37 | the first FUN_BEGIN, or the program length when there is none |
| MachineSpec.Load | src/VirtualMachine/VirtualMachine.cpp:10-37 | once a FUN_BEGIN has been loaded, the loader's current function has an entry in the table |
| MachineSpec.LoadNext | src/VirtualMachine/VirtualMachine.cpp:10-37 | loading one more instruction is one more turn of the loader's loop |
| MachineSpec.LoadFunBeginStep | src/VirtualMachine/VirtualMachine.cpp:12-25 | a FUN_BEGIN records its position, name and parameters and keeps the table describing the program |
| MachineSpec.FunBeginEntries | src/VirtualMachine/VirtualMachine.cpp:12-25 | after a FUN_BEGIN the new entry describes that FUN_BEGIN and every other entry stays |
| MachineSpec.FunBeginLatest | src/VirtualMachine/VirtualMachine.cpp:12-25 | a later FUN_BEGIN of the same name replaces the earlier entry |
| MachineSpec.LoadLabelStep | src/VirtualMachine/VirtualMachine.cpp:26-30 | a LABEL records its position under the most recent function |
| MachineSpec.SamePositionsStep | src/VirtualMachine/VirtualMachine.cpp:10-37 | a step that moves no entry keeps the table describing the program |
| MachineSpec.LabelEntryDescribes | src/VirtualMachine/VirtualMachine.cpp:26-30 | adding a label to the current function's entry keeps it describing the program |
| MachineSpec.LoadOtherStep | src/VirtualMachine/VirtualMachine.cpp:10-37 | other instructions leave the table describing the program |
| MachineSpec.EntryDescribesGrows | src/VirtualMachine/VirtualMachine.cpp:10-37 | an entry that describes a prefix of the program describes a longer one |
| MachineSpec.LoadSound | src/VirtualMachine/VirtualMachine.cpp:10-37 | each entry is the latest FUN_BEGIN of its name, with its position and parameters. Each recorded label is the position of a LABEL of that function. |
| MachineSpec.BootFresh | src/VirtualMachine/VirtualMachine.cpp:39-50 | with `main`, the only frame is `main`'s with call site 10000000, and the loop starts after `main`'s last FUN_BEGIN. Without `main`, the return code is -1 and the stack is empty. |
| MachineSpec.ArithmeticEffect | src/VirtualMachine/VirtualMachine.cpp:96-154 | ADD..MOD replace the top `first` and the `second` below it by `second op first`; the depth drops by one and nothing else changes |
| MachineSpec.ArithmeticFault | src/VirtualMachine/VirtualMachine.cpp:96-154 | arithmetic faults exactly on a short stack or a result C++ leaves undefined |
| MachineSpec.CmpEffect | src/VirtualMachine/VirtualMachine.cpp:245-267 | CMP pops two values and sets the flags for the old top against the value below |
| MachineSpec.DocumentedEffectHolds | include/Bytecode/Bytecode.h:6-112 | every instruction with a documented stack effect pops and pushes as documented and leaves the values below untouched. A load of an unknown variable, FUN_BEGIN, FUN_END and LABEL change nothing. |
| MachineSpec.LoadsEffect | src/VirtualMachine/VirtualMachine.cpp:156-209 | PUSH and the loads have their documented effect; a load of an unknown name changes nothing, not even popping the index |
| MachineSpec.StoresEffect | src/VirtualMachine/VirtualMachine.cpp:211-243 | a store consumes its values from the stack as documented |
| MachineSpec.OtherEffect | src/VirtualMachine/VirtualMachine.cpp:245-337 | CMP, the jumps, NEW_ARRAY and PRINT have their documented stack effect |
| MachineSpec.JumpLands | src/VirtualMachine/VirtualMachine.cpp:269-321 | JUMP goes on after its label's LABEL, a conditional jump does so when its flag is set and otherwise falls through; only the counter changes |
| MachineSpec.BindParamsValues | src/VirtualMachine/VirtualMachine.cpp:339-357 | parameter i takes the value i places below the top, in the map of its kind |
| MachineSpec.BindParamsUntouched | src/VirtualMachine/VirtualMachine.cpp:339-357 | names that no parameter has keep their entries |
| MachineSpec.CallBindsArguments | src/VirtualMachine/VirtualMachine.cpp:339-357 | FUN_CALL pops a value per parameter, parameter 1 taking the old top. Each value is bound by kind, the call site is recorded and the callee starts at its FUN_BEGIN. |
| MachineSpec.CallReturnRoundTrip | src/VirtualMachine/VirtualMachine.cpp:339-370 | a call and the callee's RETURN resume after the FUN_CALL, with the arguments consumed and the returned value pushed |
| MachineSpec.ReturnFromMain | src/VirtualMachine/VirtualMachine.cpp:359-370 | RETURN in `main` sets the return code to the top value and continues at call site 10000000, which ends the loop of any program of at most 10000000 instructions |
| Machine.VirtualMachine.ReadFunctions | src/VirtualMachine/VirtualMachine.cpp:8-51 | the new state and the result are those of `ReadFunctionsSpec` |
| Machine.VirtualMachine.RecordInstruction | src/VirtualMachine/VirtualMachine.cpp:12-36 | one turn of the loader's loop, as `LoadOne` |
| Machine.VirtualMachine.Execute | src/VirtualMachine/VirtualMachine.cpp:53-94 | the state after the loop is `Run` of the booted state within the fuel, and `halted` says whether the loop ended by itself |
| Machine.VirtualMachine.ExecuteInstruction | src/VirtualMachine/VirtualMachine.cpp:59-90 | the state becomes `Exec` of the old state and the instruction |
| Machine.VirtualMachine.Arithmetic | src/VirtualMachine/VirtualMachine.cpp:96-154 | as `ExecArithmetic` |
| Machine.VirtualMachine.Push | src/VirtualMachine/VirtualMachine.cpp:156-162 | as `ExecPush` |
| Machine.VirtualMachine.IntegerLoad | src/VirtualMachine/VirtualMachine.cpp:164-178 | as `ExecLoad` for integers |
| Machine.VirtualMachine.ArrayLoad | src/VirtualMachine/VirtualMachine.cpp:180-193 | as `ExecLoad` for arrays |
| Machine.VirtualMachine.LoadFromIndex | src/VirtualMachine/VirtualMachine.cpp:195-209 | as `ExecLoadFromIndex` |
| Machine.VirtualMachine.IntegerStore | src/VirtualMachine/VirtualMachine.cpp:211-219 | as `ExecStore` for integers |
| Machine.VirtualMachine.ArrayStore | src/VirtualMachine/VirtualMachine.cpp:221-229 | as `ExecStore` for arrays |
| Machine.VirtualMachine.StoreInIndex | src/VirtualMachine/VirtualMachine.cpp:231-243 | as `ExecStoreInIndex` |
| Machine.VirtualMachine.Cmp | src/VirtualMachine/VirtualMachine.cpp:245-267 | as `ExecCmp` |
| Machine.VirtualMachine.Jump | src/VirtualMachine/VirtualMachine.cpp:269-321 | as `ExecJump` |
| Machine.VirtualMachine.GoToLabel | src/VirtualMachine/VirtualMachine.cpp:269-273 | as `JumpTo` |
| Machine.VirtualMachine.NewArray | src/VirtualMachine/VirtualMachine.cpp:323-330 | as `ExecNewArray`: the heap allocates and the address, or -1, is pushed |
| Machine.VirtualMachine.Print | src/VirtualMachine/VirtualMachine.cpp:332-337 | as `ExecPrint` |
| Machine.VirtualMachine.CallFunction | src/VirtualMachine/VirtualMachine.cpp:339-357 | as `ExecCall` |
| Machine.VirtualMachine.Return | src/VirtualMachine/VirtualMachine.cpp:359-370 | as `ExecReturn` |
| OptimizerSpec.UsageAgainstDocumentation | src/Optimizer/Optimizer.cpp:9-118 | the usage table matches the documented pops except STORE_IN_INDEX (two, counted one), LABEL (none, counted one) and FUN_CALL (counted none) |
| OptimizerSpec.WalkStop | src/Optimizer/Optimizer.cpp:120-142 | the walk stops at or below its start, or at -1 |
| OptimizerSpec.WalkStopMeaning | src/Optimizer/Optimizer.cpp:120-142 | the walk from a store stops at the nearest index where what is still owed reaches zero, and it stays positive above that index |
| OptimizerSpec.ClearRange | src/Optimizer/Optimizer.cpp:132-135 | the entries `lo` to `hi - 1` are cleared, and every other entry and the length are kept |
| OptimizerSpec.CountTrueWithin | src/Optimizer/Optimizer.cpp:195-213 | a mask that only lost entries counts no more, and strictly fewer if one was lost |
| OptimizerSpec.LexLessTransitive | src/Optimizer/Optimizer.cpp:177-190 | the `std::map` key order is transitive |
| OptimizerSpec.LexLessTotal | src/Optimizer/Optimizer.cpp:177-190 | two distinct names are ordered one way |
| OptimizerSpec.LexLessAsymmetric | src/Optimizer/Optimizer.cpp:177-190 | no two names are ordered both ways |
| OptimizerSpec.LastLiveFunBegin | src/Optimizer/Optimizer.cpp:195-213 | the last live FUN_BEGIN before a position, or -1 |
| OptimizerSpec.UsefulUsedMeaning | src/Optimizer/Optimizer.cpp:243-256 | an instruction is kept exactly when it lies inside a useful function, from its latest FUN_BEGIN to the next FUN_END; instructions outside every function are dropped |
| OptimizerSpec.Compact | src/Optimizer/Optimizer.cpp:267-273 | the compacted program has as many instructions as the mask keeps |
| OptimizerSpec.KeptIndices | src/Optimizer/Optimizer.cpp:267-273 | as many indices as the mask keeps, each one kept |
| OptimizerSpec.PassRemovalStep | src/Optimizer/Optimizer.cpp:199-211 | a pass's removal, from an index carried over as 0 or a FUN_BEGIN, is one removal step |
| OptimizerSpec.RemovalStepMeaning | src/Optimizer/Optimizer.cpp:195-213 | a removal step clears the walk of the first eliminated store of the first function, in program order, with a useless variable. The function ends at a live FUN_END and starts at the last live FUN_BEGIN before it; only when there is none does it start at index 0 or a FUN_BEGIN. |
| OptimizerSpec.StepClears | src/Optimizer/Optimizer.cpp:120-188 | one removal step only loses entries, and an entry it loses was live and lies in the walk of the store the step removes |
| OptimizerSpec.TraceClears | src/Optimizer/Optimizer.cpp:145-213 | along a run the mask only loses entries. Every entry lost was cleared by one of the run's steps: live in that step's mask, and in the walk of the store the step removes, whose variable has no live load in its function in that mask. |
| OptimizerSpec.EliminatedClearsUseless | src/Optimizer/Optimizer.cpp:195-213 | VariableElimination's result lies within its input. An entry is missing only if the run reaches a mask where it lies in the walk of the first eliminated store of a function, the next step clears that walk, and the run goes on from there to the result. |
| OptimizerSpec.FunctionsEliminatedMeaning | src/Optimizer/Optimizer.cpp:215-258 | FunctionElimination keeps an instruction exactly when it was set and lies inside a function whose name is reachable from `main` over the live calls |
| OptimizerSpec.DeadCodeKeepsInside | src/Optimizer/Optimizer.cpp:260-274 | every instruction the optimizer keeps lies inside a function |
| OptimizerSpec.CompactIsSubsequence | src/Optimizer/Optimizer.cpp:267-273 | the compacted program is the original at strictly increasing indices, with every kept index present: a subsequence in order |
| Optimizer.VariableStoringElimination | src/Optimizer/Optimizer.cpp:120-142 | clears exactly the walk's range; reports true exactly when an entry in it was live |
| Optimizer.HasLiveLoad | src/Optimizer/Optimizer.cpp:164-175 | true exactly when the variable has a live load in the range |
| Optimizer.VariableEliminationInsideFunction | src/Optimizer/Optimizer.cpp:145-193 | reports false exactly when no variable of the range has a live store and no live load, and then changes nothing. Otherwise it removes the first store of the first such variable in name order with its operand code. The mask only loses entries. |
| Optimizer.FindFirstEliminated | src/Optimizer/Optimizer.cpp:150-190 | finds a store exactly when some variable of the range has a live store and no live load. The store found is the first live store of the first such variable in name order. |
| Optimizer.NewBest | src/Optimizer/Optimizer.cpp:177-190 | a useless store of a smaller name takes over as the first candidate |
| Optimizer.VariableElimination | src/Optimizer/Optimizer.cpp:195-213 | the new mask is reached from the old one by removal steps (`Eliminated`). Each step is one pass's removal: the walk of the first live store of the first useless variable, in name order, in the first function with one, which starts at the last live FUN_BEGIN before its live FUN_END (`RemovalStepMeaning`). The mask only loses entries and, at the end, no function has a useless variable. |
| Optimizer.EliminationPass | src/Optimizer/Optimizer.cpp:199-211 | a pass that reports a removal has cleared exactly the walk of the first eliminated store in the first live function, in program order, with a useless variable. The function starts at the last live FUN_BEGIN before its FUN_END, or at the carried-over index (`PassRemoval`). It leaves strictly fewer live entries. A pass that reports none has changed nothing and found no function with a useless variable. The index it carries on is 0 or a FUN_BEGIN. |
| Optimizer.CountInTail | src/Optimizer/Optimizer.cpp:230-241 | counting along the queue |
| Optimizer.FunctionElimination | src/Optimizer/Optimizer.cpp:215-258 | the useful set is what is reachable from `main` over live calls; an entry stays set exactly when it was set and lies inside a useful function |
| Optimizer.CollectCalls | src/Optimizer/Optimizer.cpp:216-228 | the callee sets are exactly the call graph over the live FUN_CALLs of the mask, and every counter starts at zero |
| Optimizer.DropUseless | src/Optimizer/Optimizer.cpp:243-256 | an entry stays set exactly when it was set and lies inside a function whose counter is non-zero |
| Optimizer.Search | src/Optimizer/Optimizer.cpp:230-241 | the search visits exactly the functions reachable from `main` |
| Optimizer.VisitedIncrement | src/Optimizer/Optimizer.cpp:230-241 | bumping a counter marks its name visited |
| Optimizer.SearchStart | src/Optimizer/Optimizer.cpp:230-241 | the search invariant holds with `main` queued |
| Optimizer.SearchDone | src/Optimizer/Optimizer.cpp:230-241 | with an empty queue the visited set is the reachable set |
| Optimizer.SearchStep | src/Optimizer/Optimizer.cpp:230-241 | one round keeps the invariant and lowers the measure |
| Optimizer.QueueOrigin | src/Optimizer/Optimizer.cpp:230-241 | every queued name was queued before or is a callee of the dequeued function |
| Optimizer.StepClosed | src/Optimizer/Optimizer.cpp:230-241 | the visited and queued names stay inside every closed set containing `main` |
| Optimizer.StepFrontier | src/Optimizer/Optimizer.cpp:230-241 | every callee of a visited function is visited or queued |
| Optimizer.Enqueue | src/Optimizer/Optimizer.cpp:234-240 | queues the callees not yet visited after the old queue, and no others |
| Optimizer.Compaction | src/Optimizer/Optimizer.cpp:267-273 | the instructions whose mask entry is set, in order |
| Optimizer.DeadCodeElimination | src/Optimizer/Optimizer.cpp:260-274 | the result is the input compacted by a mask that `DeadCodeKeeps` describes. From the full mask, the functions unreachable from `main` are dropped. Then useless stores are removed until none is left. Then the functions unreachable over the remaining calls are dropped. |
| Optimizer.Optimize | src/Optimizer/Optimizer.cpp:276-278 | as `DeadCodeElimination` |
| Generator.NewLabel | src/Bytecode/BytecodeGenerator.cpp:16-18 | the label is the counter's decimal text and the counter goes up by one |
| Generator.NewLabelDistinct | src/Bytecode/BytecodeGenerator.cpp:16-18 | consecutive labels differ |
| Generator.NegatedJump | src/Bytecode/BytecodeGenerator.cpp:78-110 | the negated jump is a conditional jump |
| Generator.NegatedJumpCorrect | src/Bytecode/BytecodeGenerator.cpp:78-110 | after CMP with the left operand on top, the negated jump is taken exactly when the relation fails |
| Generator.LastLabel | src/Bytecode/BytecodeGenerator.cpp:151-190 | a label only when the last instruction is a LABEL |
| Generator.RelationTailCode | src/Bytecode/BytecodeGenerator.cpp:237-266 | a comparison's tail appends the six tail instructions and mints two labels |
| Generator.RelationTailLabels | src/Bytecode/BytecodeGenerator.cpp:237-266 | the tail's two LABELs name the two minted labels |
| Generator.RelationalValue | src/Bytecode/BytecodeGenerator.cpp:237-266 | run on the machine, a lowered comparison leaves 1 when the relation holds and 0 when it does not, and goes on after its tail |
| Generator.TailWhenHolds | src/Bytecode/BytecodeGenerator.cpp:237-266 | when the relation holds the tail pushes 1 and jumps over the false branch |
| Generator.TailWhenFails | src/Bytecode/BytecodeGenerator.cpp:237-266 | when the relation fails the tail jumps to the false label and pushes 0 |
| Generator.ExpressionFresh | src/Bytecode/BytecodeGenerator.cpp:237-266 | lowering an expression only appends code. The labels it places come from the counter range it used and are pairwise distinct. Loop labels, the assignment flag and the type map stay. |
| Generator.SimpleFresh | src/Bytecode/BytecodeGenerator.cpp:271-289 | the same for a sum |
| Generator.TermFresh | src/Bytecode/BytecodeGenerator.cpp:294-315 | the same for a product |
| Generator.MulOperandFresh | src/Bytecode/BytecodeGenerator.cpp:320-326 | the same for a signed operand |
| Generator.FactorFresh | src/Bytecode/BytecodeGenerator.cpp:331-377 | the same for a factor |
| Generator.StatementFresh | src/Bytecode/BytecodeGenerator.cpp:72-223 | a statement only appends, places distinct fresh labels and keeps the enclosing loop's labels |
| Generator.IfFresh | src/Bytecode/BytecodeGenerator.cpp:78-110 | the same for `if` |
| Generator.ForFresh | src/Bytecode/BytecodeGenerator.cpp:112-148 | the same for `for` |
| Generator.WhileFresh | src/Bytecode/BytecodeGenerator.cpp:151-190 | the same for `while` |
| Generator.BlockFresh | src/Bytecode/BytecodeGenerator.cpp:72-76 | the same for a statement sequence |
| Generator.ArgumentNamesEncode | src/Bytecode/BytecodeGenerator.cpp:48-60 | the FUN_BEGIN operands after the name are the machine's encoding of the parameter list |
| Generator.FunBeginDecodes | src/Bytecode/BytecodeGenerator.cpp:48-60 | the machine's loader decodes them back to the declared parameters |
| Generator.FunctionShape | src/Bytecode/BytecodeGenerator.cpp:45-70 | a function starts with its FUN_BEGIN and ends with RETURN and FUN_END. The label counter is reset, so no two of its LABELs name the same label. |
| Generator.ImplicitReturn | src/Bytecode/BytecodeGenerator.cpp:64-67 | `PUSH "0"; RETURN` is added exactly when the body does not already end in RETURN |
| Generator.IdentifierChoice | src/Bytecode/BytecodeGenerator.cpp:331-345 | a store exactly when lowering an assignment target, an array instruction exactly when the type map records an array |
| Generator.UninitialisedDeclaration | src/Bytecode/BytecodeGenerator.cpp:39-42 | a declaration without initializer emits `PUSH "0"; INTEGER_STORE` even for an array |
| Generator.FirstArgumentLast | src/Bytecode/BytecodeGenerator.cpp:372-377 | the arguments are lowered last to first |
| Generator.CallLowering | src/Bytecode/BytecodeGenerator.cpp:372-377 | a call ends with FUN_CALL of the callee right after the code of its first argument, which is on top |
| Generator.WhileLabels | src/Bytecode/BytecodeGenerator.cpp:151-190 | a `while` reuses a LABEL just emitted as its condition label, and always ends by jumping back to it and placing its after label |
| Generator.UnaryMinusAsWritten | src/Bytecode/BytecodeGenerator.cpp:320-326 | as written, `-n` leaves n on the stack |
| Generator.UnaryMinusNegates | src/Bytecode/BytecodeGenerator.cpp:320-326 | the corrected lowering of `-n` leaves -n on the stack |
| Generator.GenExpression | src/Bytecode/BytecodeGenerator.cpp:237-266 | lowers `visit(ExpressionAST)`. Its effect is stated by `ExpressionFresh` (the code only grows, with fresh distinct labels and the context kept) and by `RelationalValue` (a comparison leaves 1 or 0). |
| Generator.GenSimple | src/Bytecode/BytecodeGenerator.cpp:271-289 | lowers a sum; `SimpleFresh` states its effect |
| Generator.GenTerm | src/Bytecode/BytecodeGenerator.cpp:294-315 | lowers a product; `TermFresh` states its effect |
| Generator.GenMulOperand | src/Bytecode/BytecodeGenerator.cpp:320-326 | lowers a signed operand in the corrected order; `MulOperandFresh` and `UnaryMinusNegates` state its effect |
| Generator.GenMulOperandAsWritten | src/Bytecode/BytecodeGenerator.cpp:320-326 | lowers a signed operand in the order the source writes; `UnaryMinusAsWritten` states that `-n` leaves n |
| Generator.GenFactor | src/Bytecode/BytecodeGenerator.cpp:331-377 | lowers a factor. `FactorFresh`, `IdentifierChoice`, `CallLowering` and `FirstArgumentLast` state its effect. |
| Generator.GenDeclaration | src/Bytecode/BytecodeGenerator.cpp:29-43 | lowers a variable declaration; `DeclarationFresh` and `UninitialisedDeclaration` state its effect |
| Generator.DeclarationFresh | src/Bytecode/BytecodeGenerator.cpp:29-43 | the code only grows with fresh labels, the type map records the declared kind, and the rest of the context is kept |
| Generator.GenStatement | src/Bytecode/BytecodeGenerator.cpp:72-223 | lowers a statement; `StatementFresh` states its effect |
| Generator.GenIf | src/Bytecode/BytecodeGenerator.cpp:78-110 | lowers `if`; `IfFresh` and `NegatedJumpCorrect` state its effect |
| Generator.GenFor | src/Bytecode/BytecodeGenerator.cpp:112-148 | lowers `for`; `ForFresh` states its effect |
| Generator.GenWhile | src/Bytecode/BytecodeGenerator.cpp:151-190 | lowers `while`; `WhileFresh` and `WhileLabels` state its effect |
| Generator.GenBlock | src/Bytecode/BytecodeGenerator.cpp:72-76 | lowers a statement sequence; `BlockFresh` states its effect |
| Generator.GenFunction | src/Bytecode/BytecodeGenerator.cpp:45-70 | lowers a function. `FunctionShape`, `ImplicitReturn` and `FunBeginDecodes` state its effect. |
| Generator.GenDeclarations | src/Bytecode/BytecodeGenerator.cpp:23-27 | lowers the declarations in order; `DeclarationsLower` states its effect |
| Generator.DeclarationsLower | src/Bytecode/BytecodeGenerator.cpp:23-27 | the code only grows, and every function declaration gets a FUN_BEGIN with its name and parameter operands |
| Generator.Generate | src/Bytecode/BytecodeGenerator.cpp:380-388 | the whole unit's instructions; `GenerateDeclaresFunctions` states its effect |
| Generator.GenerateDeclaresFunctions | src/Bytecode/BytecodeGenerator.cpp:380-388 | the generated program has a FUN_BEGIN, with its name and parameters, for every declared function |
| Lexer.SkipWhitespace | src/Lexer/Lexer.cpp:18-19 | skips exactly a maximal run of whitespace |
| Lexer.SkipComments | src/Lexer/Lexer.cpp:21-28 | stops at the end or at a character that is neither whitespace nor `#` |
| Lexer.ScanProgress | src/Lexer/Lexer.cpp:17-133 | EOI exactly at the end of input after blanks; every other token consumes at least one character, and its text lies in what was consumed |
| Lexer.ScanWord | src/Lexer/Lexer.cpp:35-58 | a word is the maximal run of letters, digits and `_` after a letter, and it is an identifier exactly when it is not one of the six keywords |
| Lexer.ScanNumber | src/Lexer/Lexer.cpp:60-66 | a number is the maximal run of digits |
| Lexer.ScanString | src/Lexer/Lexer.cpp:68-80 | a closed quote gives an identifier of the text between the quotes with the cursor after the closing one; an unclosed one gives a 1-character Unknown |
| Lexer.ScanOperator | src/Lexer/Lexer.cpp:82-119 | two-character operators win over their prefixes; any other character is its one-character kind, Unknown exactly when it is not listed |
| Lexer.Lexer.constructor | include/Lexer/Lexer.h:16-19 | the cursor starts at the beginning of the buffer |
| Lexer.Lexer.FormToken | src/Lexer/Lexer.cpp:127-133 | the token text is the buffer from the cursor to the token end, and the cursor moves there |
| Lexer.Lexer.SkipSpaces | src/Lexer/Lexer.cpp:18-19 | the cursor moves as `SkipWhitespace` |
| Lexer.Lexer.SkipComment | src/Lexer/Lexer.cpp:21-28 | the cursor moves past the comment line as `SkipLine` |
| Lexer.Lexer.SkipBlanks | src/Lexer/Lexer.cpp:18-28 | the cursor moves as `SkipBlank` |
| Lexer.Lexer.LexWord | src/Lexer/Lexer.cpp:35-58 | the token and cursor of `TokenAt` for a word |
| Lexer.Lexer.LexNumber | src/Lexer/Lexer.cpp:60-66 | the token and cursor of `TokenAt` for a number |
| Lexer.Lexer.LexString | src/Lexer/Lexer.cpp:68-80 | the token and cursor of `TokenAt` for a quote |
| Lexer.Lexer.LexOperator | src/Lexer/Lexer.cpp:82-119 | the token and cursor of `TokenAt` for an operator or other character |
| Lexer.Lexer.Next | src/Lexer/Lexer.cpp:17-120 | the token and the cursor are those of `Scan` from the old cursor |
| Sema.ScopeInsert | src/Sema/Sema.cpp:19-21 | adds the entry and reports true exactly when the name is not a member; an existing entry and every other name stay |
| Sema.FindDeclInnermost | src/Sema/Sema.cpp:23-32 | lookup fails exactly when no scope declares the name, and otherwise finds the innermost declaration |
| Sema.Scope.constructor | include/Sema/Scope.h:23-26 | a new scope has no members and links to its parent |
| Sema.Scope.Insert | src/Sema/Sema.cpp:19-21 | the members become `ScopeInsert` of the old members |
| Sema.Scope.Lookup | src/Sema/Sema.cpp:23-32 | the result is `FindDecl` over the chain of scopes |
| Sema.Semantic | src/Sema/Sema.cpp:440-444 | a missing tree fails |
| Sema.ExpressionKeeps | src/Sema/Sema.cpp:310-321 | an expression visit changes no scope and never clears an error |
| Sema.FactorKeeps | src/Sema/Sema.cpp:383-438 | the same for a factor |
| Sema.TypeAgrees | src/Sema/Sema.cpp:256-263 | visiting a declared type gives its kind and size |
| Sema.ExpressionAgrees | src/Sema/Sema.cpp:310-321 | the checker reports an error on an expression exactly when the typing rules give it no type, and otherwise its kind and array size |
| Sema.SimpleAgrees | src/Sema/Sema.cpp:325-342 | the same for a sum, which needs integer terms |
| Sema.TermAgrees | src/Sema/Sema.cpp:346-364 | the same for a product, which needs integer operands |
| Sema.MulOperandAgrees | src/Sema/Sema.cpp:368-376 | the same for a signed operand |
| Sema.FactorAgrees | src/Sema/Sema.cpp:383-438 | the same for identifiers, literals, array literals, indexing and calls |
| Sema.ElementsAgrees | src/Sema/Sema.cpp:397-408 | an array literal needs integer elements and is an array of as many elements as it lists |
| Sema.ListAgrees | src/Sema/Sema.cpp:280-308 | a call needs a callee with parameters and exactly as many arguments |
| Sema.ArgsAgrees | src/Sema/Sema.cpp:280-308 | each argument has its parameter's type and, for an array, its size |
| Sema.FoundParses | src/Sema/Sema.cpp:383-390 | a declaration lookup finds has a size that parses |
| Sema.DeclareFinds | src/Sema/Sema.cpp:19-32 | declaring a name visible nowhere makes lookup find it and changes no other lookup |
| Sema.VariableDeclarationScopes | src/Sema/Sema.cpp:130-158 | a passing variable declaration declares its name, visible nowhere before, in the innermost scope |
| Sema.VariableDeclarationRule | src/Sema/Sema.cpp:130-158 | a variable declaration passes exactly when its name is visible nowhere and its initializer has the declared type and, for arrays, size |
| Sema.ArgumentsRule | src/Sema/Sema.cpp:265-278 | parameters pass exactly when none is visible and no two share a name; each is declared with its type |
| Sema.StatementScopes | src/Sema/Sema.cpp:186-252 | a passing statement leaves the scope chain as deep as it found it and every outer scope as it was |
| Sema.BlockScopes | src/Sema/Sema.cpp:186-191 | the same for a statement sequence |
| Sema.FunctionDeclarationRule | src/Sema/Sema.cpp:160-184 | a function whose name is visible, or without a return type, fails; one that passes is declared with its return type and parameters and no other lookup changes |
| Sema.DeclarationEffect | src/Sema/Sema.cpp:118-126 | a top-level declaration of a visible name fails; one that passes makes its name visible and keeps the others |
| Sema.DuplicateNamesRejected | src/Sema/Sema.cpp:118-126 | two top-level declarations of one name make the check fail |
| Sema.VisitType | src/Sema/Sema.cpp:256-263 | records a type's kind and size; `TypeAgrees` states its effect |
| Sema.VisitExpression | src/Sema/Sema.cpp:310-321 | checks an expression; `ExpressionKeeps` and `ExpressionAgrees` state its effect |
| Sema.VisitFactor | src/Sema/Sema.cpp:383-438 | checks a factor. `FactorKeeps`, `FactorAgrees` and `FoundParses` state its effect. |
| Sema.VisitExpressionsList | src/Sema/Sema.cpp:280-308 | checks a call's arguments against the callee; `ListAgrees` states its effect |
| Sema.VisitArgs | src/Sema/Sema.cpp:280-308 | checks the arguments from the `i`-th on; `ArgsAgrees` states its effect |
| Sema.VisitVariableDeclaration | src/Sema/Sema.cpp:130-158 | checks a variable declaration; `VariableDeclarationRule` and `VariableDeclarationScopes` state its effect |
| Sema.VisitArguments | src/Sema/Sema.cpp:265-278 | checks and declares the parameters; `ArgumentsRule` states its effect |
| Sema.VisitFunction | src/Sema/Sema.cpp:160-184 | checks a function declaration; `FunctionDeclarationRule` states its effect |
| Sema.VisitStatement | src/Sema/Sema.cpp:193-252 | checks a statement; `StatementScopes` states its effect |
| Sema.VisitBlock | src/Sema/Sema.cpp:186-191 | checks a statement sequence up to the first error; `BlockScopes` states its effect |
| Sema.VisitUnit | src/Sema/Sema.cpp:118-126 | checks the unit in one global scope; `DeclarationEffect` and `DuplicateNamesRejected` state its effect |
| JitGc.SurvivorsMembers | include/Jit/GarbageCollector.h:26-48 | an allocation survives exactly when it was allocated and a root holds its address; nothing is added |
| JitGc.SurvivorsAppend | include/Jit/GarbageCollector.h:40-48 | survivors keep their order |
| JitGc.SurvivorsIdempotent | include/Jit/GarbageCollector.h:26-48 | collecting twice with the same roots frees nothing the second time |
| JitGc.SurvivorsDistinct | include/Jit/GarbageCollector.h:40-48 | survivors of distinct allocations are distinct |
| JitGc.RootsStep | include/Jit/GarbageCollector.h:27-38 | widening the window by a word adds its value to the roots |
| JitGc.GarbageCollector.NewArrayAlloc | include/Jit/GarbageCollector.h:13-20 | appends exactly one fresh zeroed allocation of the size and returns it |
| JitGc.GarbageCollector.InitStack | include/Jit/GarbageCollector.h:22-24 | records the base of the stack window |
| JitGc.GarbageCollector.Find | include/Jit/GarbageCollector.h:29-36 | the first allocation at the address, or none |
| JitGc.GarbageCollector.Mark | include/Jit/GarbageCollector.h:27-38 | an allocation is marked exactly when a word of the window holds its address |
| JitGc.GarbageCollector.Collect | include/Jit/GarbageCollector.h:26-49 | the allocations become the survivors of the window's roots |
| InterpreterGc.NewestIsLast | include/Interpreter/GarbageCollector.h:21-28 | lookup fails exactly when no variable has the name, and otherwise finds the one pushed last |
| InterpreterGc.PushedIsFound | include/Interpreter/GarbageCollector.h:21-36 | a variable pushed last shadows older ones; other names are found where they were |
| InterpreterGc.GarbageCollector.GetVariablePtr | include/Interpreter/GarbageCollector.h:21-28 | the newest variable with the name, or null |
| InterpreterGc.GarbageCollector.NewInt | include/Interpreter/GarbageCollector.h:30-32 | pushes `{0, name}` and leaves every other entry |
| InterpreterGc.GarbageCollector.NewPtr | include/Interpreter/GarbageCollector.h:34-36 | pushes `{0, name}` and leaves every other entry |
| InterpreterGc.GarbageCollector.NewArrayAlloc | include/Interpreter/GarbageCollector.h:38-42 | records one allocation and pushes a variable holding its address; a negative size throws, reported as failure with nothing changed |
| InterpreterGc.GarbageCollector.NewScope | include/Interpreter/GarbageCollector.h:45-46 | changes nothing |
| InterpreterGc.GarbageCollector.DestroyScope | include/Interpreter/GarbageCollector.h:49-50 | changes nothing |

## Left out

- The asmjit and LLVM back ends, the parser, `src/Codegen/Optimizer.cpp` and the drivers are not part of this model. The back ends emit machine code through libraries that are not part of this model. The parser is an incomplete stub. The Codegen optimizer discards what it computes.
- `include/Parser/AST.h` and `include/Lexer/Token.h` do not match the classes and token kinds the generator, the checker and the lexer use. The syntax tree (`Ast`) and `TokenKind` are defined from those uses.
- Output is not modelled as a stream:
  - PRINT appends the value to the machine's `output` sequence, and the trailing space is formatting only.
  - The messages written to `std::cerr` are not modelled.
- C++ undefined behaviour becomes a `Fault` outcome of the machine rather than a behaviour. The cases are:
  - an empty-stack pop or top;
  - a zero divisor;
  - `int64_t` overflow;
  - calling a function the table does not have;
  - missing operands.
- An odd FUN_BEGIN operand list, an unknown parameter kind and a LABEL without an operand are not faults. The loader requires them away (`DecodableInstruction` inside `Loadable`); see "## Left out".
- Machine.VirtualMachine.Execute: runs at most `fuel` turns of the loop and reports whether it stopped by itself, because the source's loop need not terminate.
- `std::stoll` on PUSH operands is modelled as `Decimal.StoLL`. Its exceptions are a `Fault`.
- The missing-`main` path follows the source. `ReadFunctions` sets the return code to -1, and the loop then runs from line 0 with an empty call stack. The first instruction there that needs a frame is a `Fault`.
- The heap, the function table and the collectors' addresses are abstract integers. Raw memory is not modelled: `new[]`/`delete[]`, the variable-length mark array and pointer casts.
- JitGc.GarbageCollector.NewArrayAlloc: the size is a `nat`; a negative size makes `new int64_t[]` throw, and that exception is not modelled for the JIT collector. The address is a parameter that is distinct from every recorded address.
- JitGc: the compiled code's writes into array cells are not modelled, and neither is the destructor that frees everything.
- InterpreterGc: the contents of the arrays are not modelled, `strcmp` is string equality, and the destructor is not modelled.
- InterpreterGc.GarbageCollector.NewArrayAlloc: the address is a parameter standing for what the system allocator returns, and an allocation failure (`std::bad_alloc`) is not modelled. The exception a negative size raises is modelled as `ok == false`.
- MachineSpec.Load: requires every FUN_BEGIN to carry a name and (kind, name) pairs with the kind `integer` or `array`, and every LABEL to carry its name (`DecodableInstruction`). The source reads past an odd list and leaves the parameter type uninitialised for another kind.
- MachineSpec.Load: requires every LABEL to follow a FUN_BEGIN when the loader has no current function (`Loadable`). The source records such a LABEL in a value-initialised entry for the empty name (src/VirtualMachine/VirtualMachine.cpp:32-34). That entry is not modelled.
- Machine.VirtualMachine.ReadFunctions: requires `Loadable`, with the two restrictions of `MachineSpec.Load` above; so does `Machine.VirtualMachine.Execute`, which calls it.
- Heap.Heap.FreeMemory: requires the freed block to fit in the heap (`FreeFits`). The source walks the header's count of cells with no bound check.
- Optimizer.VariableStoringElimination: requires that the backward walk of its store stops above index 0. When the walk reaches index 0, the source reads `bytecode[-1]`.
- Optimizer.VariableEliminationInsideFunction: requires the same bound of every live store in its range (`LiveWalksStop`), since any of them may be the one removed.
- Optimizer.EliminationPass: requires the bound of every live store (`LiveWalksStop` over the whole program), not only of the stores inside the ranges it offers; a live global store whose walk reaches index 0 is excluded, although the source walks only stores inside those ranges. Optimizer.VariableElimination requires the same.
- Optimizer.DeadCodeElimination: requires the bound only of stores inside a function (`FunctionWalksStop`); global initializers need not meet it, because FunctionElimination has dropped them before VariableElimination runs. Optimizer.Optimize requires the same.
- OptimizerSpec.RemovalStep: the index a pass carries over from the previous pass is known only to be 0 or a FUN_BEGIN. It matters only for a live FUN_END with no live FUN_BEGIN before it, where a step may start the function at index 0 or at any FUN_BEGIN, whichever is live.
- Optimizer.VariableEliminationInsideFunction: the `std::map` key order is modelled as lexicographic order by character code.
- Optimizer.FunctionElimination: returns the useful set as a ghost value; the source keeps it in a local map.
- The optimizer requires every load, store, FUN_BEGIN and FUN_CALL instruction to carry its operand (`WellFormed`); these are the only operands it reads, and the source reads `operands[0]` unconditionally.
- Generator: the generator's array-initialisation node holds one expression, while the checker's holds a list. The shared tree holds a list, and the generator lowers each element in order, which is the source for one element.
- Generator.Generate: lowers a unary minus in the corrected order, `PUSH 0`, the factor, then `SUB`, through `GenMulOperand`. This applies to `GenTerm`, `GenMulTerms` and everything built on them. The order as written (the factor, then `PUSH 0; SUB`) is modelled only by `GenMulOperandAsWritten`; see "## Findings".
- Generator.MulOperandFresh: is stated about the corrected lowering only, like the other freshness lemmas built on it.
- Generator: the type map returns `Integer` for a name it has not seen, the value `operator[]` inserts.
- Generator: `break` and `continue` lower to a jump to the enclosing loop's labels and are not given lemmas of their own.
- Lexer.Lexer.Next: an EOI token keeps the text of the token passed in, because the source does not set it.
- Lexer: the buffer is a sequence of Unicode characters, while the source scans bytes through `char`. A non-ASCII character gives one Unknown token here and one per UTF-8 byte in the source.
- Lexer: a NUL character inside the buffer ends the input, as in the source. The buffer is a sequence of characters, and `peek` is a stub and is not modelled.
- Sema: an undeclared identifier is reported as an error. The source dereferences the null declaration.
- Sema: a call with arguments to a callee with no parameters stops at the first argument. The source would read past the parameter list.
- Sema: the parameter list is attached to a function's declaration when the declaration is inserted. The source attaches it after checking the list; nothing reads it in between.
- Sema: there is no rule for `for`, `break` or `continue`, as in the source. An assignment checks no types, as in the source.
- Sema: a scope is not closed after an error in an `if` or `while` body, as in the source.
- Sema: `lastArraySize` keeps its old value after an integer literal whose text does not parse.
- Sema.ExpressionAgrees: requires that every array size in the scopes parses as a 64-bit value (`ScopesParse`).
- Sema.VariableDeclarationRule: requires that every array size in the scopes and in the declaration parses as a 64-bit value.
- Sema.Semantic: states only that a missing tree fails. Its other direction is stated by `Sema.DeclarationEffect` and `Sema.DuplicateNamesRejected`.

## Findings

| source | as written | input that shows it | evidently intended | confidence | as-written member | corrected member |
|---|---|---|---|---|---|---|
| src/Bytecode/BytecodeGenerator.cpp:320-326 | a unary minus lowers the factor, then `PUSH "0"; SUB`, which leaves factor - 0 | `-5` leaves 5 on the stack | push 0 first, then the factor, then SUB, leaving 0 - factor | not executed | Generator.UnaryMinusAsWritten | Generator.UnaryMinusNegates |
