/** The virtual machine object: the call stack, instruction counter,
    comparison flags, return code and function table live in fields that the
    instruction handlers update in place, over a `Heap` object. Every handler
    is proved to leave the machine in the state `MachineSpec` prescribes. */
module Machine {
  import opened Basics
  import opened Bytecode
  import opened Decimal
  import opened Heap
  import opened MachineSpec

  class VirtualMachine {
    var callStack: seq<Frame>
    var currentLine: int
    var compareResult: Flags
    var returnCode: int
    /** Everything PRINT wrote to standard output, in order. */
    var output: seq<int>
    var functionTable: map<string, FunctionContext>
    var lastFunctionName: string
    const heap: Heap

    ghost predicate Valid()
      reads this, heap
    {
      heap.Valid()
    }

    /** The fields as a `MachineSpec.Machine` value. */
    ghost function State(): Machine
      reads this, heap, heap.heap
    {
      Machine(callStack, currentLine, compareResult, returnCode, output, heap.heap[..], functionTable)
    }

    /** A machine with an empty call stack and table over a heap of
        `heapSize` free cells. */
    constructor (heapSize: nat)
      ensures Valid() && fresh(heap) && fresh(heap.heap)
      ensures State() == Machine([], 0, Cleared, 0, [], seq(heapSize, _ => EmptyCell), map[])
      ensures lastFunctionName == ""
    {
      callStack := [];
      currentLine := 0;
      compareResult := Cleared;
      returnCode := 0;
      output := [];
      functionTable := map[];
      lastFunctionName := "";
      heap := new Heap(heapSize);
    }

    /** Loads the function table and, when `main` exists, pushes its frame. */
    method ReadFunctions(operations: seq<Instruction>) returns (r: int)
      requires Valid() && Loadable(operations, Table(functionTable, lastFunctionName))
      modifies this
      ensures Valid()
      ensures var l := ReadFunctionsSpec(old(State()), old(lastFunctionName), operations);
        State() == l.m && lastFunctionName == l.last && r == l.entry
    {
      ghost var t0 := Table(functionTable, lastFunctionName);
      var pos := 0;
      while pos < |operations|
        invariant 0 <= pos <= |operations|
        invariant Table(functionTable, lastFunctionName) == Load(operations, pos, t0)
        invariant callStack == old(callStack) && currentLine == old(currentLine)
        invariant compareResult == old(compareResult) && returnCode == old(returnCode) && output == old(output)
      {
        LoadNext(operations, pos, t0);
        RecordInstruction(pos, operations[pos]);
        pos := pos + 1;
      }
      if "main" !in functionTable {
        returnCode := -1;
        return -1;
      }
      callStack := callStack + [MainFrame(functionTable["main"])];
      r := functionTable["main"].pos;
    }

    /** The body of the loader's loop for the instruction at `pos`. */
    method RecordInstruction(pos: int, instr: Instruction)
      requires DecodableInstruction(instr)
      requires instr.op == Label ==> lastFunctionName in functionTable
      modifies this
      ensures Table(functionTable, lastFunctionName) == LoadOne(old(Table(functionTable, lastFunctionName)), pos, instr)
      ensures callStack == old(callStack) && currentLine == old(currentLine)
      ensures compareResult == old(compareResult) && returnCode == old(returnCode) && output == old(output)
    {
      if instr.op == FunBegin {
        var functionName := instr.operands[0];
        var params := DecodeParams(instr.operands[1..]).value;
        functionTable := functionTable[functionName := FunctionContext(pos, params, functionName, map[])];
        lastFunctionName := functionName;
      } else if instr.op == Label {
        var fc := functionTable[lastFunctionName];
        functionTable := functionTable[lastFunctionName := fc.(labels := fc.labels[instr.operands[0] := pos])];
      }
    }

    /** Runs the program from after `main`'s FUN_BEGIN for at most `fuel`
        turns of the loop, and reports whether the loop ended by itself. */
    method Execute(operations: seq<Instruction>, fuel: nat) returns (halted: bool)
      requires Valid() && Loadable(operations, Table(functionTable, lastFunctionName))
      requires Run(operations, Boot(State(), lastFunctionName, operations), fuel).Ok?
      modifies this, heap.heap
      ensures Valid()
      ensures State() == Run(operations, Boot(old(State()), old(lastFunctionName), operations), fuel).m
      ensures halted == !Running(operations, State())
    {
      var entry := ReadFunctions(operations);
      currentLine := entry + 1;
      ghost var start := State();
      var steps := 0;
      while 0 <= currentLine < |operations| && steps < fuel
        invariant Valid() && 0 <= steps <= fuel
        invariant Run(operations, start, fuel) == Run(operations, State(), fuel - steps)
        decreases fuel - steps
      {
        RunUnfold(operations, State(), fuel - steps);
        ExecuteInstruction(operations[currentLine]);
        currentLine := currentLine + 1;
        steps := steps + 1;
      }
      halted := !(0 <= currentLine < |operations|);
    }

    /** The `switch` of the execution loop. */
    method ExecuteInstruction(instr: Instruction)
      requires Valid() && Exec(State(), instr).Ok?
      modifies this, heap.heap
      ensures Valid() && State() == Exec(old(State()), instr).m
    {
      match instr.op {
        case Add => Arithmetic(Add);
        case Sub => Arithmetic(Sub);
        case Mul => Arithmetic(Mul);
        case Div => Arithmetic(Div);
        case Mod => Arithmetic(Mod);
        case Push => Push(instr.operands);
        case IntegerLoad => IntegerLoad(instr.operands);
        case ArrayLoad => ArrayLoad(instr.operands);
        case LoadFromIndex => LoadFromIndex(instr.operands);
        case IntegerStore => IntegerStore(instr.operands);
        case ArrayStore => ArrayStore(instr.operands);
        case StoreInIndex => StoreInIndex(instr.operands);
        case NewArray => NewArray();
        case Print => Print();
        case Cmp => Cmp();
        case Jump => Jump(Operation.Jump, instr.operands);
        case JumpEq => Jump(JumpEq, instr.operands);
        case JumpNe => Jump(JumpNe, instr.operands);
        case JumpLt => Jump(JumpLt, instr.operands);
        case JumpLe => Jump(JumpLe, instr.operands);
        case JumpGt => Jump(JumpGt, instr.operands);
        case JumpGe => Jump(JumpGe, instr.operands);
        case Return => Return();
        case FunCall => CallFunction(instr.operands);
        case FunBegin =>
        case FunEnd =>
        case Label =>
      }
    }

    /** ADD, SUB, MUL, DIV, MOD: pop `first`, pop `second`, push
        `second op first`. */
    method Arithmetic(op: Operation)
      requires Valid() && IsArithmetic(op) && ExecArithmetic(State(), op).Ok?
      modifies this
      ensures Valid() && State() == ExecArithmetic(old(State()), op).m
    {
      var frame := callStack[|callStack| - 1];
      var operandStack := frame.operandStack;
      var first := operandStack[|operandStack| - 1];
      operandStack := operandStack[..|operandStack| - 1];
      var second := operandStack[|operandStack| - 1];
      operandStack := operandStack[..|operandStack| - 1];
      var result := Arith(op, second, first).value;
      callStack := callStack[..|callStack| - 1] + [frame.(operandStack := operandStack + [result])];
    }

    method Push(operands: seq<string>)
      requires Valid() && ExecPush(State(), operands).Ok?
      modifies this
      ensures Valid() && State() == ExecPush(old(State()), operands).m
    {
      var frame := callStack[|callStack| - 1];
      var value := StoLL(operands[0]).value;
      callStack := callStack[..|callStack| - 1] + [frame.(operandStack := frame.operandStack + [value])];
    }

    method IntegerLoad(operands: seq<string>)
      requires Valid() && ExecLoad(State(), operands, false).Ok?
      modifies this
      ensures Valid() && State() == ExecLoad(old(State()), operands, false).m
    {
      var frame := callStack[|callStack| - 1];
      var variableName := operands[0];
      if variableName !in frame.integerVariables {
        return;
      }
      var value := frame.integerVariables[variableName];
      callStack := callStack[..|callStack| - 1] + [frame.(operandStack := frame.operandStack + [value])];
    }

    method ArrayLoad(operands: seq<string>)
      requires Valid() && ExecLoad(State(), operands, true).Ok?
      modifies this
      ensures Valid() && State() == ExecLoad(old(State()), operands, true).m
    {
      var frame := callStack[|callStack| - 1];
      var arrayName := operands[0];
      if arrayName !in frame.arrayVariables {
        return;
      }
      var value := frame.arrayVariables[arrayName];
      callStack := callStack[..|callStack| - 1] + [frame.(operandStack := frame.operandStack + [value])];
    }

    method LoadFromIndex(operands: seq<string>)
      requires Valid() && ExecLoadFromIndex(State(), operands).Ok?
      modifies this
      ensures Valid() && State() == ExecLoadFromIndex(old(State()), operands).m
    {
      var frame := callStack[|callStack| - 1];
      var arrayName := operands[0];
      if arrayName !in frame.arrayVariables {
        return;
      }
      var operandStack := frame.operandStack;
      var index := operandStack[|operandStack| - 1];
      operandStack := operandStack[..|operandStack| - 1];
      var pointer := frame.arrayVariables[arrayName];
      var value := heap.GetValueByIndex(pointer + index);
      callStack := callStack[..|callStack| - 1] + [frame.(operandStack := operandStack + [value])];
    }

    method IntegerStore(operands: seq<string>)
      requires Valid() && ExecStore(State(), operands, false).Ok?
      modifies this
      ensures Valid() && State() == ExecStore(old(State()), operands, false).m
    {
      var frame := callStack[|callStack| - 1];
      var variableName := operands[0];
      var value := frame.operandStack[|frame.operandStack| - 1];
      frame := frame.(operandStack := frame.operandStack[..|frame.operandStack| - 1]);
      callStack := callStack[..|callStack| - 1] + [frame.(integerVariables := frame.integerVariables[variableName := value])];
    }

    method ArrayStore(operands: seq<string>)
      requires Valid() && ExecStore(State(), operands, true).Ok?
      modifies this
      ensures Valid() && State() == ExecStore(old(State()), operands, true).m
    {
      var frame := callStack[|callStack| - 1];
      var variableName := operands[0];
      var value := frame.operandStack[|frame.operandStack| - 1];
      frame := frame.(operandStack := frame.operandStack[..|frame.operandStack| - 1]);
      callStack := callStack[..|callStack| - 1] + [frame.(arrayVariables := frame.arrayVariables[variableName := value])];
    }

    method StoreInIndex(operands: seq<string>)
      requires Valid() && ExecStoreInIndex(State(), operands).Ok?
      modifies this, heap.heap
      ensures Valid() && State() == ExecStoreInIndex(old(State()), operands).m
    {
      var frame := callStack[|callStack| - 1];
      var variableName := operands[0];
      var pointer := if variableName in frame.arrayVariables then frame.arrayVariables[variableName] else 0;
      frame := frame.(arrayVariables := frame.arrayVariables[variableName := pointer]);
      var operandStack := frame.operandStack;
      var index := operandStack[|operandStack| - 1];
      operandStack := operandStack[..|operandStack| - 1];
      var value := operandStack[|operandStack| - 1];
      operandStack := operandStack[..|operandStack| - 1];
      callStack := callStack[..|callStack| - 1] + [frame.(operandStack := operandStack)];
      heap.SetValueByIndex(pointer + index, value);
    }

    method Cmp()
      requires Valid() && ExecCmp(State()).Ok?
      modifies this
      ensures Valid() && State() == ExecCmp(old(State())).m
    {
      var frame := callStack[|callStack| - 1];
      var operandStack := frame.operandStack;
      var lhs := operandStack[|operandStack| - 1];
      operandStack := operandStack[..|operandStack| - 1];
      var rhs := operandStack[|operandStack| - 1];
      operandStack := operandStack[..|operandStack| - 1];
      callStack := callStack[..|callStack| - 1] + [frame.(operandStack := operandStack)];
      compareResult := Cleared;
      if lhs == rhs {
        compareResult := compareResult.(eq := true);
      }
      if lhs != rhs {
        compareResult := compareResult.(ne := true);
      }
      if lhs < rhs {
        compareResult := compareResult.(lt := true);
      }
      if lhs <= rhs {
        compareResult := compareResult.(le := true);
      }
      if lhs > rhs {
        compareResult := compareResult.(gt := true);
      }
      if lhs >= rhs {
        compareResult := compareResult.(ge := true);
      }
    }

    /** JUMP and JUMP_EQ .. JUMP_GE: move the counter to the label's line,
        unconditionally or when the operation's flag is set. */
    method Jump(op: Operation, operands: seq<string>)
      requires Valid() && IsJump(op) && ExecJump(State(), op, operands).Ok?
      modifies this
      ensures Valid() && State() == ExecJump(old(State()), op, operands).m
    {
      var labelName := operands[0];
      if op == Operation.Jump || FlagOf(op, compareResult) {
        GoToLabel(labelName);
      }
    }

    /** `currentLine = functionContext.labels[label]` on the top frame; the
        map's `operator[]` enters a missing label as line 0. */
    method GoToLabel(labelName: string)
      requires Valid() && callStack != []
      modifies this
      ensures Valid() && State() == JumpTo(old(State()), labelName).m
    {
      var frame := callStack[|callStack| - 1];
      var labels := frame.functionContext.labels;
      var target := if labelName in labels then labels[labelName] else 0;
      frame := frame.(functionContext := frame.functionContext.(labels := labels[labelName := target]));
      callStack := callStack[..|callStack| - 1] + [frame];
      currentLine := target;
    }

    method NewArray()
      requires Valid() && ExecNewArray(State()).Ok?
      modifies this, heap.heap
      ensures Valid() && State() == ExecNewArray(old(State())).m
    {
      var frame := callStack[|callStack| - 1];
      var operandStack := frame.operandStack;
      var arraySize := operandStack[|operandStack| - 1];
      operandStack := operandStack[..|operandStack| - 1];
      var address := heap.AllocateMemory(arraySize);
      callStack := callStack[..|callStack| - 1] + [frame.(operandStack := operandStack + [address])];
    }

    method Print()
      requires Valid() && ExecPrint(State()).Ok?
      modifies this
      ensures Valid() && State() == ExecPrint(old(State())).m
    {
      var frame := callStack[|callStack| - 1];
      var value := frame.operandStack[|frame.operandStack| - 1];
      callStack := callStack[..|callStack| - 1] + [frame.(operandStack := frame.operandStack[..|frame.operandStack| - 1])];
      output := output + [value];
    }

    /** FUN_CALL: bind the parameters, in declaration order, to values popped
        from the caller's stack, push the callee's frame and continue at its
        FUN_BEGIN. */
    method CallFunction(operands: seq<string>)
      requires Valid() && ExecCall(State(), operands).Ok?
      modifies this
      ensures Valid() && State() == ExecCall(old(State()), operands).m
    {
      var frame := callStack[|callStack| - 1];
      var functionName := operands[0];
      var params := functionTable[functionName].paramsDeclaration;
      var operandStack := frame.operandStack;
      var integerVariables: map<string, int> := map[];
      var arrayVariables: map<string, int> := map[];
      var i := 0;
      while i < |params|
        invariant 0 <= i <= |params| && |operandStack| + i == |frame.operandStack|
        invariant BindParams(params, frame.operandStack, map[], map[])
          == BindParams(params[i..], operandStack, integerVariables, arrayVariables)
      {
        var param := params[i];
        if param.kind == IntegerValue {
          integerVariables := integerVariables[param.name := operandStack[|operandStack| - 1]];
        } else {
          arrayVariables := arrayVariables[param.name := operandStack[|operandStack| - 1]];
        }
        operandStack := operandStack[..|operandStack| - 1];
        assert params[i..][1..] == params[i + 1..];
        i := i + 1;
      }
      var newStackFrame := Frame([], integerVariables, arrayVariables, currentLine, functionTable[functionName]);
      callStack := callStack[..|callStack| - 1] + [frame.(operandStack := operandStack), newStackFrame];
      currentLine := functionTable[functionName].pos;
    }

    /** RETURN: continue at the frame's call site; in `main` record the
        return code, elsewhere drop the frame and hand the top value to the
        caller. */
    method Return()
      requires Valid() && ExecReturn(State()).Ok?
      modifies this
      ensures Valid() && State() == ExecReturn(old(State())).m
    {
      var frame := callStack[|callStack| - 1];
      currentLine := frame.calledPos;
      var returnedValue := frame.operandStack[|frame.operandStack| - 1];
      if frame.functionContext.functionName == "main" {
        returnCode := returnedValue;
        return;
      }
      callStack := callStack[..|callStack| - 1];
      var caller := callStack[|callStack| - 1];
      callStack := callStack[..|callStack| - 1] + [caller.(operandStack := caller.operandStack + [returnedValue])];
    }
  }
}
