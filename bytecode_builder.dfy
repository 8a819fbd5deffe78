/** The append-only instruction builder the generator writes through. Every
    emitter appends exactly one instruction; `Build` hands back the
    instructions in emission order. */
module BytecodeBuilder {
  import opened Bytecode

  /** Operations emitted with an empty operand list. */
  predicate NoOperand(op: Operation) {
    op in {Add, Sub, Mul, Div, Mod, NewArray, Print, FunEnd, Return, Cmp}
  }

  /** Operations emitted with the single name or literal they are given. */
  predicate OneOperand(op: Operation) {
    op in {Push, IntegerLoad, ArrayLoad, LoadFromIndex, IntegerStore, ArrayStore,
           StoreInIndex, FunCall, Label, Jump, JumpEq, JumpNe, JumpLt, JumpLe, JumpGt, JumpGe}
  }

  class BytecodeBuilder {
    var code: seq<Instruction>

    constructor ()
      ensures code == []
    {
      code := [];
    }

    /** The instructions emitted so far, in emission order. */
    method Build() returns (r: seq<Instruction>)
      ensures r == code
    {
      r := code;
    }

    /** add, sub, mul, div, mod, newArray, print, funEnd, addReturn, cmp. */
    method EmitPlain(op: Operation)
      requires NoOperand(op)
      modifies this
      ensures code == old(code) + [Instruction(op, [])]
    {
      code := code + [Instruction(op, [])];
    }

    /** push, the loads and stores, funCall, label, jump and the conditional
        jumps: one operand, the argument. */
    method EmitWithOperand(op: Operation, operand: string)
      requires OneOperand(op)
      modifies this
      ensures code == old(code) + [Instruction(op, [operand])]
    {
      code := code + [Instruction(op, [operand])];
    }

    /** funBegin: the function name followed by (kind, name) pairs, verbatim. */
    method EmitFunBegin(names: seq<string>)
      modifies this
      ensures code == old(code) + [Instruction(FunBegin, names)]
    {
      code := code + [Instruction(FunBegin, names)];
    }

    /** The most recently appended instruction; the buffer must not be empty
        (the source reads `back()` of the vector). */
    method GetLastCommand() returns (r: Instruction)
      requires code != []
      ensures r == code[|code| - 1]
    {
      r := code[|code| - 1];
    }
  }
}
