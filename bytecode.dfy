/** The instruction set: a closed enumeration of 27 operations, each
    instruction an operation with a list of textual operands (variable,
    function and label names, or decimal literals). */
module Bytecode {
  import opened Basics

  datatype Operation =
    | Add | Sub | Mul | Div | Mod
    | Push | IntegerLoad | ArrayLoad | LoadFromIndex
    | IntegerStore | ArrayStore | StoreInIndex
    | NewArray | Print
    | FunBegin | FunEnd | FunCall | Return
    | Label | Jump | Cmp
    | JumpEq | JumpNe | JumpLt | JumpLe | JumpGt | JumpGe

  /** One bytecode record: `(operation, operands)`. */
  datatype Instruction = Instruction(op: Operation, operands: seq<string>)

  /** The numeric value the enumeration gives each operation. */
  function OpCode(op: Operation): (c: nat)
    ensures c <= 26
    ensures FromOpCode(c) == Some(op)
  {
    match op
    case Add => 0
    case Sub => 1
    case Mul => 2
    case Div => 3
    case Mod => 4
    case Push => 5
    case IntegerLoad => 6
    case ArrayLoad => 7
    case LoadFromIndex => 8
    case IntegerStore => 9
    case ArrayStore => 10
    case StoreInIndex => 11
    case NewArray => 12
    case Print => 13
    case FunBegin => 14
    case FunEnd => 15
    case FunCall => 16
    case Return => 17
    case Label => 18
    case Jump => 19
    case Cmp => 20
    case JumpEq => 21
    case JumpNe => 22
    case JumpLt => 23
    case JumpLe => 24
    case JumpGt => 25
    case JumpGe => 26
  }

  /** The operation with a given numeric value, if there is one. */
  function FromOpCode(c: nat): (r: Option<Operation>)
    ensures r.None? <==> c > 26
  {
    match c
    case 0 => Some(Add)
    case 1 => Some(Sub)
    case 2 => Some(Mul)
    case 3 => Some(Div)
    case 4 => Some(Mod)
    case 5 => Some(Push)
    case 6 => Some(IntegerLoad)
    case 7 => Some(ArrayLoad)
    case 8 => Some(LoadFromIndex)
    case 9 => Some(IntegerStore)
    case 10 => Some(ArrayStore)
    case 11 => Some(StoreInIndex)
    case 12 => Some(NewArray)
    case 13 => Some(Print)
    case 14 => Some(FunBegin)
    case 15 => Some(FunEnd)
    case 16 => Some(FunCall)
    case 17 => Some(Return)
    case 18 => Some(Label)
    case 19 => Some(Jump)
    case 20 => Some(Cmp)
    case 21 => Some(JumpEq)
    case 22 => Some(JumpNe)
    case 23 => Some(JumpLt)
    case 24 => Some(JumpLe)
    case 25 => Some(JumpGt)
    case 26 => Some(JumpGe)
    case _ => None
  }

  /** The 27 codes are pairwise distinct ... */
  lemma OpCodeInjective(a: Operation, b: Operation)
    requires OpCode(a) == OpCode(b)
    ensures a == b
  {
    assert FromOpCode(OpCode(a)) == Some(a);
    assert FromOpCode(OpCode(b)) == Some(b);
  }

  /** ... and every code in 0..26 belongs to some operation. */
  lemma OpCodeOnto(c: nat)
    requires c <= 26
    ensures exists op :: OpCode(op) == c
  {
    var op := FromOpCode(c).value;
    assert OpCode(op) == c;
  }

  predicate IsUpperOrUnderscore(ch: char) {
    ('A' <= ch <= 'Z') || ch == '_'
  }

  /** The printable name of each operation, spelled as in the enumeration. */
  function ConvertOperationToString(op: Operation): (s: string)
    ensures s != []
  {
    match op
    case Add => "ADD"
    case Sub => "SUB"
    case Mul => "MUL"
    case Div => "DIV"
    case Mod => "MOD"
    case Push => "PUSH"
    case IntegerLoad => "INTEGER_LOAD"
    case ArrayLoad => "ARRAY_LOAD"
    case LoadFromIndex => "LOAD_FROM_INDEX"
    case IntegerStore => "INTEGER_STORE"
    case ArrayStore => "ARRAY_STORE"
    case StoreInIndex => "STORE_IN_INDEX"
    case NewArray => "NEW_ARRAY"
    case Print => "PRINT"
    case FunCall => "FUN_CALL"
    case Return => "RETURN"
    case Label => "LABEL"
    case Jump => "JUMP"
    case Cmp => "CMP"
    case JumpEq => "JUMP_EQ"
    case JumpNe => "JUMP_NE"
    case JumpLt => "JUMP_LT"
    case JumpLe => "JUMP_LE"
    case JumpGt => "JUMP_GT"
    case JumpGe => "JUMP_GE"
    case FunBegin => "FUN_BEGIN"
    case FunEnd => "FUN_END"
  }

  /** The inverse of `ConvertOperationToString`: the operation a name denotes. */
  function ParseOperation(s: string): Option<Operation> {
    if s == "ADD" then Some(Add)
    else if s == "SUB" then Some(Sub)
    else if s == "MUL" then Some(Mul)
    else if s == "DIV" then Some(Div)
    else if s == "MOD" then Some(Mod)
    else if s == "PUSH" then Some(Push)
    else if s == "INTEGER_LOAD" then Some(IntegerLoad)
    else if s == "ARRAY_LOAD" then Some(ArrayLoad)
    else if s == "LOAD_FROM_INDEX" then Some(LoadFromIndex)
    else if s == "INTEGER_STORE" then Some(IntegerStore)
    else if s == "ARRAY_STORE" then Some(ArrayStore)
    else if s == "STORE_IN_INDEX" then Some(StoreInIndex)
    else if s == "NEW_ARRAY" then Some(NewArray)
    else if s == "PRINT" then Some(Print)
    else if s == "FUN_BEGIN" then Some(FunBegin)
    else if s == "FUN_END" then Some(FunEnd)
    else if s == "FUN_CALL" then Some(FunCall)
    else if s == "RETURN" then Some(Return)
    else if s == "LABEL" then Some(Label)
    else if s == "JUMP" then Some(Jump)
    else if s == "CMP" then Some(Cmp)
    else if s == "JUMP_EQ" then Some(JumpEq)
    else if s == "JUMP_NE" then Some(JumpNe)
    else if s == "JUMP_LT" then Some(JumpLt)
    else if s == "JUMP_LE" then Some(JumpLe)
    else if s == "JUMP_GT" then Some(JumpGt)
    else if s == "JUMP_GE" then Some(JumpGe)
    else None
  }

  /** `s` is made of capital letters and underscores. */
  predicate AllUpper(s: string) {
    forall i :: 0 <= i < |s| ==> IsUpperOrUnderscore(s[i])
  }

  lemma UpperCaseNames0()
    ensures AllUpper("ADD")
    ensures AllUpper("SUB")
    ensures AllUpper("MUL")
    ensures AllUpper("DIV")
  {
  }

  lemma UpperCaseNames1()
    ensures AllUpper("MOD")
    ensures AllUpper("PUSH")
    ensures AllUpper("INTEGER_LOAD")
    ensures AllUpper("ARRAY_LOAD")
  {
  }

  lemma UpperCaseNames2()
    ensures AllUpper("LOAD_FROM_INDEX")
    ensures AllUpper("INTEGER_STORE")
    ensures AllUpper("ARRAY_STORE")
    ensures AllUpper("STORE_IN_INDEX")
  {
  }

  lemma UpperCaseNames3()
    ensures AllUpper("NEW_ARRAY")
    ensures AllUpper("PRINT")
    ensures AllUpper("FUN_BEGIN")
    ensures AllUpper("FUN_END")
  {
  }

  lemma UpperCaseNames4()
    ensures AllUpper("FUN_CALL")
    ensures AllUpper("RETURN")
    ensures AllUpper("LABEL")
    ensures AllUpper("JUMP")
  {
  }

  lemma UpperCaseNames5()
    ensures AllUpper("CMP")
    ensures AllUpper("JUMP_EQ")
    ensures AllUpper("JUMP_NE")
    ensures AllUpper("JUMP_LT")
  {
  }

  lemma UpperCaseNames6()
    ensures AllUpper("JUMP_LE")
    ensures AllUpper("JUMP_GT")
    ensures AllUpper("JUMP_GE")
  {
  }

  /** Every name is made of capital letters and underscores. */
  lemma ConvertOperationToStringUpperCase(op: Operation)
    ensures forall i :: 0 <= i < |ConvertOperationToString(op)| ==>
      IsUpperOrUnderscore(ConvertOperationToString(op)[i])
  {
    UpperCaseNames0();
    UpperCaseNames1();
    UpperCaseNames2();
    UpperCaseNames3();
    UpperCaseNames4();
    UpperCaseNames5();
    UpperCaseNames6();
    assert AllUpper(ConvertOperationToString(op));
  }

  // The names of each group read back, in the order `ParseOperation` tries them.

  lemma ParseArithmeticNames()
    ensures ParseOperation("ADD") == Some(Add)
    ensures ParseOperation("SUB") == Some(Sub)
    ensures ParseOperation("MUL") == Some(Mul)
    ensures ParseOperation("DIV") == Some(Div)
    ensures ParseOperation("MOD") == Some(Mod)
    ensures ParseOperation("PUSH") == Some(Push)
  {
  }

  lemma ParseMemoryNames()
    ensures ParseOperation("INTEGER_LOAD") == Some(IntegerLoad)
    ensures ParseOperation("ARRAY_LOAD") == Some(ArrayLoad)
    ensures ParseOperation("LOAD_FROM_INDEX") == Some(LoadFromIndex)
    ensures ParseOperation("INTEGER_STORE") == Some(IntegerStore)
    ensures ParseOperation("ARRAY_STORE") == Some(ArrayStore)
    ensures ParseOperation("STORE_IN_INDEX") == Some(StoreInIndex)
  {
  }

  lemma ParseFunctionsNames()
    ensures ParseOperation("NEW_ARRAY") == Some(NewArray)
    ensures ParseOperation("PRINT") == Some(Print)
    ensures ParseOperation("FUN_BEGIN") == Some(FunBegin)
    ensures ParseOperation("FUN_END") == Some(FunEnd)
    ensures ParseOperation("FUN_CALL") == Some(FunCall)
    ensures ParseOperation("RETURN") == Some(Return)
  {
  }

  lemma ParseControlNames()
    ensures ParseOperation("LABEL") == Some(Label)
    ensures ParseOperation("JUMP") == Some(Jump)
    ensures ParseOperation("CMP") == Some(Cmp)
    ensures ParseOperation("JUMP_EQ") == Some(JumpEq)
  {
  }

  lemma ParseConditionalNames()
    ensures ParseOperation("JUMP_NE") == Some(JumpNe)
    ensures ParseOperation("JUMP_LT") == Some(JumpLt)
    ensures ParseOperation("JUMP_LE") == Some(JumpLe)
  {
  }

  lemma ParseGreaterNames()
    ensures ParseOperation("JUMP_GT") == Some(JumpGt)
    ensures ParseOperation("JUMP_GE") == Some(JumpGe)
  {
  }

  /** `ParseOperation` reads every operation back from its name. */
  lemma ParseConvertOperation(op: Operation)
    ensures ParseOperation(ConvertOperationToString(op)) == Some(op)
  {
    ParseArithmeticNames();
    ParseMemoryNames();
    ParseFunctionsNames();
    ParseControlNames();
    ParseConditionalNames();
    ParseGreaterNames();
  }

  /** Distinct operations have distinct names. */
  lemma ConvertOperationToStringInjective(a: Operation, b: Operation)
    requires ConvertOperationToString(a) == ConvertOperationToString(b)
    ensures a == b
  {
    ParseConvertOperation(a);
    ParseConvertOperation(b);
  }

  /** The stack effect each operation's documentation states, for the
      operations whose effect does not depend on the program: `None` for
      FUN_CALL (it takes one value per parameter of the callee) and for
      RETURN (it moves a value to another frame). */
  datatype StackEffect = StackEffect(pops: nat, pushes: nat)

  function DocumentedEffect(op: Operation): Option<StackEffect> {
    match op
    case Add | Sub | Mul | Div | Mod => Some(StackEffect(2, 1))
    case Push | IntegerLoad | ArrayLoad => Some(StackEffect(0, 1))
    case LoadFromIndex => Some(StackEffect(1, 1))
    case IntegerStore | ArrayStore | Print => Some(StackEffect(1, 0))
    case StoreInIndex => Some(StackEffect(2, 0))
    case NewArray => Some(StackEffect(1, 1))
    case Cmp => Some(StackEffect(2, 0))
    case FunCall | Return => None
    case FunBegin | FunEnd | Label | Jump | JumpEq | JumpNe | JumpLt | JumpLe | JumpGt | JumpGe =>
      Some(StackEffect(0, 0))
  }

  /** The conditional jumps, each guarded by one comparison flag. */
  predicate IsConditionalJump(op: Operation) {
    op in {JumpEq, JumpNe, JumpLt, JumpLe, JumpGt, JumpGe}
  }

  predicate IsJump(op: Operation) {
    op == Jump || IsConditionalJump(op)
  }
}
