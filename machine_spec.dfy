/** The bytecode virtual machine as a state machine over values: the state
    the `VirtualMachine` class keeps in its fields, the effect of each
    instruction handler on it, the function-table loader, and bounded runs.
    A step whose C++ behaviour is undefined (an empty stack read, division by
    zero, a value outside `int64_t`, a missing operand, an unknown callee) or
    that throws (`std::stoll` on a malformed literal) yields `Fault`. */
module MachineSpec {
  import opened Basics
  import opened Bytecode
  import opened Decimal
  import opened Heap

  datatype ValueType = IntegerValue | ArrayValue

  /** A declared parameter: its name and kind. */
  datatype Param = Param(name: string, kind: ValueType)

  /** What the loader records for each FUN_BEGIN. */
  datatype FunctionContext = FunctionContext(
    pos: int,
    paramsDeclaration: seq<Param>,
    functionName: string,
    labels: map<string, int>)

  /** One activation: the operand stack (top = last element), the two
      variable maps, the line of the FUN_CALL that created it, and a copy of
      the callee's context. */
  datatype Frame = Frame(
    operandStack: seq<int>,
    integerVariables: map<string, int>,
    arrayVariables: map<string, int>,
    calledPos: int,
    functionContext: FunctionContext)

  /** The six comparison flags CMP sets. */
  datatype Flags = Flags(eq: bool, ne: bool, lt: bool, le: bool, gt: bool, ge: bool)

  const Cleared := Flags(false, false, false, false, false, false)

  /** The machine: call stack (top = last element), the instruction counter,
      the flags, the return code, everything PRINT wrote, the heap cells and
      the function table. */
  datatype Machine = Machine(
    callStack: seq<Frame>,
    currentLine: int,
    compareResult: Flags,
    returnCode: int,
    output: seq<int>,
    heap: seq<Cell>,
    functionTable: map<string, FunctionContext>)

  datatype Outcome = Ok(m: Machine) | Fault

  /** The position recorded as `calledPos` of the frame of `main`. */
  const MainCalledPos := 10000000

  // ---------------------------------------------------------------------
  // Arithmetic of int64_t with C++ semantics

  /** C++ `/`: the quotient truncated toward zero. */
  function TruncDiv(a: int, b: int): int
    requires b != 0
  {
    var q := Abs(a) / Abs(b);
    if (a < 0) == (b < 0) then q else -q
  }

  /** C++ `%`: the remainder that goes with `TruncDiv`. */
  function TruncMod(a: int, b: int): int
    requires b != 0
  {
    a - b * TruncDiv(a, b)
  }

  function Abs(x: int): nat {
    if x < 0 then -x else x
  }

  /** Division and remainder agree with C++: `a == (a/b)*b + a%b`, the
      remainder is smaller than the divisor in magnitude and takes the sign of
      the dividend, and the quotient never exceeds the exact one in
      magnitude. */
  lemma TruncDivMod(a: int, b: int)
    requires b != 0
    ensures TruncDiv(a, b) * b + TruncMod(a, b) == a
    ensures Abs(TruncMod(a, b)) < Abs(b)
    ensures a >= 0 ==> TruncMod(a, b) >= 0
    ensures a <= 0 ==> TruncMod(a, b) <= 0
    ensures Abs(TruncDiv(a, b) * b) <= Abs(a)
  {
    var A: int, B: int := Abs(a), Abs(b);
    var q: int, r: int := A / B, A % B;
    var qb := q * B;
    assert A == qb + r && 0 <= r < B;
    assert 0 <= qb;
    TruncDivTimes(a, b, q, B);
    var td := TruncDiv(a, b);
    var p := td * b;
    MulComm(td, b);
    assert TruncMod(a, b) == a - p;
    RemainderSigns(a, A, r, qb, p, TruncMod(a, b), B);
  }

  /** The truncated quotient times the divisor: the largest multiple of the
      divisor within `a`, with the sign of `a`. */
  lemma TruncDivTimes(a: int, b: int, q: int, B: int)
    requires b != 0 && B == Abs(b) && q == Abs(a) / Abs(b)
    ensures TruncDiv(a, b) * b == if a < 0 then -(q * B) else q * B
  {
    MulSigns(q, B);
  }

  lemma MulSigns(x: int, y: int)
    ensures x * (0 - y) == 0 - x * y && (0 - x) * y == 0 - x * y && (0 - x) * (0 - y) == x * y
  {
  }

  lemma MulComm(x: int, y: int)
    ensures x * y == y * x
  {
  }

  lemma RemainderSigns(a: int, A: int, r: int, qb: int, p: int, tm: int, B: int)
    requires A == Abs(a) && A == qb + r && 0 <= r < B && 0 <= qb
    requires p == if a < 0 then -qb else qb
    requires tm == a - p
    ensures Abs(tm) < B && (a >= 0 ==> tm >= 0) && (a <= 0 ==> tm <= 0) && Abs(p) <= A
  {
  }

  predicate IsArithmetic(op: Operation) {
    op in {Add, Sub, Mul, Div, Mod}
  }

  /** `second op first` on int64_t values; `None` where C++ leaves the
      result undefined: a zero divisor or a result outside int64_t (for
      MOD, a quotient outside int64_t, as for INT64_MIN % -1). */
  function Arith(op: Operation, second: int, first: int): (r: Option<int>)
    requires IsArithmetic(op)
    ensures r.Some? ==> InInt64(r.value)
    ensures (op == Div || op == Mod) && first == 0 ==> r.None?
  {
    var exact :=
      match op
      case Add => Some(second + first)
      case Sub => Some(second - first)
      case Mul => Some(second * first)
      case Div => if first == 0 then None else Some(TruncDiv(second, first))
      case Mod =>
        if first == 0 || !InInt64(TruncDiv(second, first)) then None
        else Some(TruncMod(second, first));
    if exact.Some? && InInt64(exact.value) then exact else None
  }

  /** The flags CMP sets for `lhs` (the old top) against `rhs`. */
  function CmpFlags(lhs: int, rhs: int): Flags {
    Flags(lhs == rhs, lhs != rhs, lhs < rhs, lhs <= rhs, lhs > rhs, lhs >= rhs)
  }

  /** After a CMP exactly one of LT, EQ, GT holds; EQ and NE are opposite,
      LE is LT or EQ, GE is GT or EQ. */
  lemma CmpFlagsRelations(lhs: int, rhs: int)
    ensures var f := CmpFlags(lhs, rhs);
      && f.eq == !f.ne
      && f.le == (f.lt || f.eq)
      && f.ge == (f.gt || f.eq)
      && ((f.lt && !f.eq && !f.gt) || (!f.lt && f.eq && !f.gt) || (!f.lt && !f.eq && f.gt))
  {
  }

  /** The flag a conditional jump tests. */
  function FlagOf(op: Operation, f: Flags): bool
    requires IsConditionalJump(op)
  {
    match op
    case JumpEq => f.eq
    case JumpNe => f.ne
    case JumpLt => f.lt
    case JumpLe => f.le
    case JumpGt => f.gt
    case JumpGe => f.ge
  }

  // ---------------------------------------------------------------------
  // Frames

  function Top(m: Machine): Frame
    requires m.callStack != []
  {
    m.callStack[|m.callStack| - 1]
  }

  /** The machine with its top frame replaced. */
  function SetTop(m: Machine, f: Frame): (r: Machine)
    requires m.callStack != []
    ensures |r.callStack| == |m.callStack| && Top(r) == f
    ensures r.callStack[..|r.callStack| - 1] == m.callStack[..|m.callStack| - 1]
  {
    m.(callStack := m.callStack[..|m.callStack| - 1] + [f])
  }

  function Last(s: seq<int>): int
    requires s != []
  {
    s[|s| - 1]
  }

  function Pop(s: seq<int>): seq<int>
    requires s != []
  {
    s[..|s| - 1]
  }

  // ---------------------------------------------------------------------
  // Instruction handlers

  function ExecArithmetic(m: Machine, op: Operation): Outcome
    requires IsArithmetic(op)
  {
    if m.callStack == [] then Fault
    else
      var f := Top(m);
      var st := f.operandStack;
      if |st| < 2 then Fault
      else
        var first, second := Last(st), Last(Pop(st));
        match Arith(op, second, first)
        case None => Fault
        case Some(v) => Ok(SetTop(m, f.(operandStack := Pop(Pop(st)) + [v])))
  }

  function ExecPush(m: Machine, operands: seq<string>): Outcome {
    if m.callStack == [] || operands == [] then Fault
    else
      match StoLL(operands[0])
      case None => Fault
      case Some(v) =>
        var f := Top(m);
        Ok(SetTop(m, f.(operandStack := f.operandStack + [v])))
  }

  /** INTEGER_LOAD (`isArray` false) and ARRAY_LOAD (`isArray` true): push the
      variable's value; an unknown name leaves the machine as it was. */
  function ExecLoad(m: Machine, operands: seq<string>, isArray: bool): Outcome {
    if m.callStack == [] || operands == [] then Fault
    else
      var f := Top(m);
      var vars := if isArray then f.arrayVariables else f.integerVariables;
      if operands[0] !in vars then Ok(m)
      else Ok(SetTop(m, f.(operandStack := f.operandStack + [vars[operands[0]]])))
  }

  function ExecLoadFromIndex(m: Machine, operands: seq<string>): Outcome {
    if m.callStack == [] || operands == [] then Fault
    else
      var f := Top(m);
      if operands[0] !in f.arrayVariables then Ok(m)
      else if f.operandStack == [] then Fault
      else
        var address := f.arrayVariables[operands[0]] + Last(f.operandStack);
        if !InInt64(address) then Fault
        else Ok(SetTop(m, f.(operandStack := Pop(f.operandStack) + [Read(m.heap, address)])))
  }

  /** INTEGER_STORE and ARRAY_STORE: pop the top into the variable. */
  function ExecStore(m: Machine, operands: seq<string>, isArray: bool): Outcome {
    if m.callStack == [] || operands == [] || Top(m).operandStack == [] then Fault
    else
      var f := Top(m);
      var v := Last(f.operandStack);
      var f' := f.(operandStack := Pop(f.operandStack));
      if isArray then Ok(SetTop(m, f'.(arrayVariables := f.arrayVariables[operands[0] := v])))
      else Ok(SetTop(m, f'.(integerVariables := f.integerVariables[operands[0] := v])))
  }

  /** STORE_IN_INDEX: the array's pointer is read first (an unknown name is
      entered with pointer 0), then the index and the value are popped. */
  function ExecStoreInIndex(m: Machine, operands: seq<string>): Outcome {
    if m.callStack == [] || operands == [] then Fault
    else
      var f := Top(m);
      var name := operands[0];
      var pointer := if name in f.arrayVariables then f.arrayVariables[name] else 0;
      var st := f.operandStack;
      if |st| < 2 then Fault
      else
        var index, value := Last(st), Last(Pop(st));
        if !InInt64(pointer + index) then Fault
        else
          var f' := f.(operandStack := Pop(Pop(st)), arrayVariables := f.arrayVariables[name := pointer]);
          Ok(SetTop(m, f').(heap := Write(m.heap, pointer + index, value)))
  }

  /** NEW_ARRAY: pop the size and push what the allocator returns, -1 when
      the heap has no room. */
  function ExecNewArray(m: Machine): Outcome {
    if m.callStack == [] || Top(m).operandStack == [] then Fault
    else
      var f := Top(m);
      var size := Last(f.operandStack);
      if !InInt64(size + 1) then Fault
      else
        var (heap', address) := Allocate(m.heap, size);
        Ok(SetTop(m, f.(operandStack := Pop(f.operandStack) + [address])).(heap := heap'))
  }

  function ExecPrint(m: Machine): Outcome {
    if m.callStack == [] || Top(m).operandStack == [] then Fault
    else
      var f := Top(m);
      Ok(SetTop(m, f.(operandStack := Pop(f.operandStack))).(output := m.output + [Last(f.operandStack)]))
  }

  function ExecCmp(m: Machine): Outcome {
    if m.callStack == [] || |Top(m).operandStack| < 2 then Fault
    else
      var f := Top(m);
      var lhs, rhs := Last(f.operandStack), Last(Pop(f.operandStack));
      Ok(SetTop(m, f.(operandStack := Pop(Pop(f.operandStack)))).(compareResult := CmpFlags(lhs, rhs)))
  }

  /** Continue at the label's LABEL line. A label the frame does not know is
      entered into the frame's copy of the label map as line 0. */
  function JumpTo(m: Machine, labelName: string): Outcome
    requires m.callStack != []
  {
    var f := Top(m);
    var labels := f.functionContext.labels;
    var target := if labelName in labels then labels[labelName] else 0;
    var f' := f.(functionContext := f.functionContext.(labels := labels[labelName := target]));
    Ok(SetTop(m, f').(currentLine := target))
  }

  /** JUMP always, a conditional jump when its flag is set. */
  function ExecJump(m: Machine, op: Operation, operands: seq<string>): Outcome
    requires IsJump(op)
  {
    if m.callStack == [] || operands == [] then Fault
    else if op == Jump || FlagOf(op, m.compareResult) then JumpTo(m, operands[0])
    else Ok(m)
  }

  /** The result of binding parameters to popped caller values. */
  datatype Binding = Binding(rest: seq<int>, integerVariables: map<string, int>, arrayVariables: map<string, int>)

  /** Each parameter, in declaration order, takes the current top of `stack`
      (which is then popped) into the map of its kind. */
  function BindParams(params: seq<Param>, stack: seq<int>, ints: map<string, int>, arrays: map<string, int>): (r: Option<Binding>)
    ensures r.Some? <==> |params| <= |stack|
    ensures r.Some? ==> r.value.rest == stack[..|stack| - |params|]
    decreases params
  {
    if params == [] then Some(Binding(stack, ints, arrays))
    else if stack == [] then None
    else
      var v := Last(stack);
      var p := params[0];
      if p.kind == IntegerValue then BindParams(params[1..], Pop(stack), ints[p.name := v], arrays)
      else BindParams(params[1..], Pop(stack), ints, arrays[p.name := v])
  }

  function ExecCall(m: Machine, operands: seq<string>): Outcome {
    if m.callStack == [] || operands == [] || operands[0] !in m.functionTable then Fault
    else
      var ctx := m.functionTable[operands[0]];
      var f := Top(m);
      match BindParams(ctx.paramsDeclaration, f.operandStack, map[], map[])
      case None => Fault
      case Some(b) =>
        var callee := Frame([], b.integerVariables, b.arrayVariables, m.currentLine, ctx);
        Ok(m.(callStack := m.callStack[..|m.callStack| - 1] + [f.(operandStack := b.rest), callee],
              currentLine := ctx.pos))
  }

  /** RETURN: continue after the frame's call site with the top value. In
      `main` the value becomes the return code and the frame stays; otherwise
      the frame is dropped and the value is pushed onto the caller's stack. */
  function ExecReturn(m: Machine): Outcome {
    if m.callStack == [] || Top(m).operandStack == [] then Fault
    else
      var f := Top(m);
      var v := Last(f.operandStack);
      if f.functionContext.functionName == "main" then
        Ok(m.(currentLine := f.calledPos, returnCode := v))
      else if |m.callStack| == 1 then Fault
      else
        var below := m.callStack[..|m.callStack| - 1];
        var caller := below[|below| - 1];
        Ok(m.(currentLine := f.calledPos,
              callStack := below[..|below| - 1] + [caller.(operandStack := caller.operandStack + [v])]))
  }

  /** The effect of one instruction before the counter advances. FUN_BEGIN,
      FUN_END and LABEL do nothing. */
  function Exec(m: Machine, instr: Instruction): Outcome {
    match instr.op
    case Add | Sub | Mul | Div | Mod => ExecArithmetic(m, instr.op)
    case Push => ExecPush(m, instr.operands)
    case IntegerLoad => ExecLoad(m, instr.operands, false)
    case ArrayLoad => ExecLoad(m, instr.operands, true)
    case LoadFromIndex => ExecLoadFromIndex(m, instr.operands)
    case IntegerStore => ExecStore(m, instr.operands, false)
    case ArrayStore => ExecStore(m, instr.operands, true)
    case StoreInIndex => ExecStoreInIndex(m, instr.operands)
    case NewArray => ExecNewArray(m)
    case Print => ExecPrint(m)
    case Cmp => ExecCmp(m)
    case Jump | JumpEq | JumpNe | JumpLt | JumpLe | JumpGt | JumpGe => ExecJump(m, instr.op, instr.operands)
    case Return => ExecReturn(m)
    case FunCall => ExecCall(m, instr.operands)
    case FunBegin | FunEnd | Label => Ok(m)
  }

  /** The execution loop keeps going while the counter indexes an
      instruction; `currentLine < operations.size()` compares a signed value
      with an unsigned size, so a negative counter also ends the loop. */
  predicate Running(ops: seq<Instruction>, m: Machine) {
    0 <= m.currentLine < |ops|
  }

  /** One turn of the execution loop: the instruction at the counter, then
      `currentLine++`. */
  function Step(ops: seq<Instruction>, m: Machine): Outcome
    requires Running(ops, m)
  {
    match Exec(m, ops[m.currentLine])
    case Fault => Fault
    case Ok(m') => Ok(m'.(currentLine := m'.currentLine + 1))
  }

  /** At most `fuel` turns of the execution loop. */
  function Run(ops: seq<Instruction>, m: Machine, fuel: nat): Outcome
    decreases fuel
  {
    if !Running(ops, m) || fuel == 0 then Ok(m)
    else
      match Step(ops, m)
      case Fault => Fault
      case Ok(m') => Run(ops, m', fuel - 1)
  }

  /** One turn of a run that does not fault: the instruction's effect is
      defined, and the run goes on from the state after it. */
  lemma RunUnfold(ops: seq<Instruction>, m: Machine, fuel: nat)
    requires Running(ops, m) && fuel > 0 && Run(ops, m, fuel).Ok?
    ensures Exec(m, ops[m.currentLine]).Ok?
    ensures var m' := Exec(m, ops[m.currentLine]).m;
      Run(ops, m, fuel) == Run(ops, m'.(currentLine := m'.currentLine + 1), fuel - 1)
  {
  }

  // ---------------------------------------------------------------------
  // Loading the function table

  function KindOf(s: string): Option<ValueType> {
    if s == "integer" then Some(IntegerValue)
    else if s == "array" then Some(ArrayValue)
    else None
  }

  function KindName(k: ValueType): string {
    match k
    case IntegerValue => "integer"
    case ArrayValue => "array"
  }

  /** The parameters FUN_BEGIN lists after the function name, as
      (kind, name) pairs; `None` for an odd count (the loader reads past the
      end) or an unknown kind (the loader leaves the kind uninitialised). */
  function DecodeParams(operands: seq<string>): (r: Option<seq<Param>>)
    ensures r.Some? ==> |operands| == 2 * |r.value|
    decreases |operands|
  {
    if operands == [] then Some([])
    else if |operands| == 1 then None
    else
      match KindOf(operands[0])
      case None => None
      case Some(k) =>
        match DecodeParams(operands[2..])
        case None => None
        case Some(ps) => Some([Param(operands[1], k)] + ps)
  }

  /** The operands that list `params` after a FUN_BEGIN's name. */
  function EncodeParams(params: seq<Param>): (s: seq<string>)
    ensures |s| == 2 * |params|
  {
    if params == [] then [] else [KindName(params[0].kind), params[0].name] + EncodeParams(params[1..])
  }

  /** Decoding reads back every parameter list encoding writes ... */
  lemma {:induction false} DecodeEncodeParams(params: seq<Param>)
    ensures DecodeParams(EncodeParams(params)) == Some(params)
  {
    if params != [] {
      var s := EncodeParams(params);
      assert s[2..] == EncodeParams(params[1..]);
      assert s[0] == KindName(params[0].kind) && s[1] == params[0].name;
      assert KindOf(KindName(params[0].kind)) == Some(params[0].kind);
      DecodeEncodeParams(params[1..]);
      assert [Param(s[1], params[0].kind)] + params[1..] == params;
    }
  }

  /** ... and only the strings encoding writes decode at all. */
  lemma {:induction false} EncodeDecodeParams(operands: seq<string>)
    requires DecodeParams(operands).Some?
    ensures EncodeParams(DecodeParams(operands).value) == operands
    decreases |operands|
  {
    if operands != [] {
      EncodeDecodeParams(operands[2..]);
      var ps := DecodeParams(operands).value;
      assert ps[1..] == DecodeParams(operands[2..]).value;
    }
  }

  /** The loader's state: the table and the most recent function's name. */
  datatype Table = Table(functions: map<string, FunctionContext>, last: string)

  predicate DecodableInstruction(instr: Instruction) {
    && (instr.op == FunBegin ==> instr.operands != [] && DecodeParams(instr.operands[1..]).Some?)
    && (instr.op == Label ==> instr.operands != [])
  }

  /** The index of the first FUN_BEGIN, or |ops| when there is none. */
  function FirstFunBegin(ops: seq<Instruction>): (i: nat)
    ensures i <= |ops|
    ensures forall j :: 0 <= j < i ==> ops[j].op != FunBegin
    ensures i < |ops| ==> ops[i].op == FunBegin
  {
    if ops == [] then 0
    else if ops[0].op == FunBegin then 0
    else 1 + FirstFunBegin(ops[1..])
  }

  /** What the loader needs of the program: well-formed FUN_BEGIN and LABEL
      operands, and every LABEL owned by a function (one declared earlier in
      the program, or the loader's current one). A LABEL with no owner goes,
      in the source, into a value-initialised entry for the empty name; the
      model does not describe that entry. */
  predicate Loadable(ops: seq<Instruction>, t: Table) {
    && (forall p :: 0 <= p < |ops| ==> DecodableInstruction(ops[p]))
    && (t.last !in t.functions ==>
          forall p :: 0 <= p < |ops| && ops[p].op == Label ==> FirstFunBegin(ops) < p)
  }

  /** The loader's effect of the instruction at `pos`. */
  function LoadOne(t: Table, pos: int, instr: Instruction): Table
    requires DecodableInstruction(instr)
    requires instr.op == Label ==> t.last in t.functions
  {
    match instr.op
    case FunBegin =>
      var name := instr.operands[0];
      var ctx := FunctionContext(pos, DecodeParams(instr.operands[1..]).value, name, map[]);
      Table(t.functions[name := ctx], name)
    case Label =>
      var ctx := t.functions[t.last];
      t.(functions := t.functions[t.last := ctx.(labels := ctx.labels[instr.operands[0] := pos])])
    case _ => t
  }

  /** The loader after the first `n` instructions. */
  function Load(ops: seq<Instruction>, n: nat, t: Table): (r: Table)
    requires n <= |ops| && Loadable(ops, t)
    ensures (t.last in t.functions || FirstFunBegin(ops) < n) ==> r.last in r.functions
    ensures t.last in t.functions ==> r.last in r.functions
  {
    if n == 0 then t
    else
      var prev := Load(ops, n - 1, t);
      assert ops[n - 1].op == Label ==> prev.last in prev.functions by {
        if ops[n - 1].op == Label && t.last !in t.functions {
          assert FirstFunBegin(ops) < n - 1;
        }
      }
      LoadOne(prev, n - 1, ops[n - 1])
  }

  /** The loader after `n + 1` instructions is the loader after `n` that
      went on with instruction `n`, which it can do. */
  lemma LoadNext(ops: seq<Instruction>, n: nat, t: Table)
    requires n < |ops| && Loadable(ops, t)
    ensures DecodableInstruction(ops[n])
    ensures ops[n].op == Label ==> Load(ops, n, t).last in Load(ops, n, t).functions
    ensures Load(ops, n + 1, t) == LoadOne(Load(ops, n, t), n, ops[n])
  {
    if ops[n].op == Label && t.last !in t.functions {
      assert FirstFunBegin(ops) < n;
    }
  }

  /** The instruction at `p` is `LABEL l`. */
  predicate IsLabelAt(ops: seq<Instruction>, p: int, l: string) {
    0 <= p < |ops| && ops[p].op == Label && ops[p].operands != [] && ops[p].operands[0] == l
  }

  /** What a function-table entry loaded from scratch says about the
      program: its position holds the function's FUN_BEGIN, with the
      parameters decoded from it, and each label maps to a LABEL of that name
      after the FUN_BEGIN and before the next one. */
  predicate EntryDescribes(ops: seq<Instruction>, n: nat, name: string, ctx: FunctionContext)
    requires n <= |ops|
  {
    && 0 <= ctx.pos < n
    && ops[ctx.pos].op == FunBegin
    && ops[ctx.pos].operands != []
    && ops[ctx.pos].operands[0] == name
    && ctx.functionName == name
    && Some(ctx.paramsDeclaration) == DecodeParams(ops[ctx.pos].operands[1..])
    && (forall l :: l in ctx.labels ==> ctx.pos < ctx.labels[l] < n && IsLabelAt(ops, ctx.labels[l], l))
    && (forall l :: l in ctx.labels ==> forall q :: ctx.pos < q <= ctx.labels[l] ==> ops[q].op != FunBegin)
  }

  /** What the loader's state says about the first `n` instructions when
      it started from an empty table: every entry describes its function's
      FUN_BEGIN and labels, the latest FUN_BEGIN of a name wins, every
      FUN_BEGIN seen has an entry, and the current function is the one of
      the latest FUN_BEGIN. */
  predicate LoadedFrom(ops: seq<Instruction>, n: nat, t: Table)
    requires n <= |ops|
  {
    && EntriesDescribe(ops, n, t)
    && LatestWins(ops, n, t)
    && AllDeclared(ops, n, t)
    && CurrentIsLatest(ops, n, t)
  }

  predicate EntriesDescribe(ops: seq<Instruction>, n: nat, t: Table)
    requires n <= |ops|
  {
    forall name :: name in t.functions ==> EntryDescribes(ops, n, name, t.functions[name])
  }

  predicate NamesFunction(instr: Instruction, name: string) {
    instr.op == FunBegin && instr.operands != [] && instr.operands[0] == name
  }

  predicate LatestWins(ops: seq<Instruction>, n: nat, t: Table)
    requires n <= |ops|
  {
    forall name, q :: name in t.functions && 0 <= q && t.functions[name].pos < q < n ==> !NamesFunction(ops[q], name)
  }

  predicate AllDeclared(ops: seq<Instruction>, n: nat, t: Table)
    requires n <= |ops|
  {
    forall q :: 0 <= q < n && ops[q].op == FunBegin && ops[q].operands != [] ==> ops[q].operands[0] in t.functions
  }

  predicate CurrentIsLatest(ops: seq<Instruction>, n: nat, t: Table)
    requires n <= |ops|
  {
    && (t.last in t.functions ==> forall q :: 0 <= q && t.functions[t.last].pos < q < n ==> ops[q].op != FunBegin)
    && (t.last !in t.functions ==> t.functions == map[] && forall q :: 0 <= q < n ==> ops[q].op != FunBegin)
  }

  /** A FUN_BEGIN step keeps `LoadedFrom`. */
  lemma LoadFunBeginStep(ops: seq<Instruction>, n: nat, prev: Table)
    requires 0 < n <= |ops| && LoadedFrom(ops, n - 1, prev)
    requires ops[n - 1].op == FunBegin && DecodableInstruction(ops[n - 1])
    ensures LoadedFrom(ops, n, LoadOne(prev, n - 1, ops[n - 1]))
  {
    var t := LoadOne(prev, n - 1, ops[n - 1]);
    var name := ops[n - 1].operands[0];
    assert t.last == name && t.functions == prev.functions[name := t.functions[name]];
    assert t.functions[name].pos == n - 1 && t.functions[name].labels == map[];
    FunBeginEntries(ops, n, prev, t);
    FunBeginLatest(ops, n, prev, t);
  }

  lemma FunBeginEntries(ops: seq<Instruction>, n: nat, prev: Table, t: Table)
    requires 0 < n <= |ops| && EntriesDescribe(ops, n - 1, prev)
    requires ops[n - 1].op == FunBegin && DecodableInstruction(ops[n - 1])
    requires t == LoadOne(prev, n - 1, ops[n - 1])
    ensures EntriesDescribe(ops, n, t)
  {
    var name := ops[n - 1].operands[0];
    forall other | other in t.functions
      ensures EntryDescribes(ops, n, other, t.functions[other])
    {
      if other != name {
        EntryDescribesGrows(ops, n - 1, other, prev.functions[other]);
      }
    }
  }

  lemma FunBeginLatest(ops: seq<Instruction>, n: nat, prev: Table, t: Table)
    requires 0 < n <= |ops| && LatestWins(ops, n - 1, prev) && AllDeclared(ops, n - 1, prev)
    requires ops[n - 1].op == FunBegin && ops[n - 1].operands != []
    requires t.last == ops[n - 1].operands[0]
    requires t.last in t.functions && t.functions == prev.functions[t.last := t.functions[t.last]]
    requires t.functions[t.last].pos == n - 1
    ensures LatestWins(ops, n, t) && AllDeclared(ops, n, t) && CurrentIsLatest(ops, n, t)
  {
    forall other, q | other in t.functions && 0 <= q && t.functions[other].pos < q < n
      ensures !NamesFunction(ops[q], other)
    {
      if other != t.last {
        assert other in prev.functions && t.functions[other] == prev.functions[other];
      }
    }
  }

  /** A LABEL step keeps `LoadedFrom`. */
  lemma LoadLabelStep(ops: seq<Instruction>, n: nat, prev: Table)
    requires 0 < n <= |ops| && LoadedFrom(ops, n - 1, prev)
    requires ops[n - 1].op == Label && DecodableInstruction(ops[n - 1])
    requires prev.last in prev.functions
    ensures LoadedFrom(ops, n, LoadOne(prev, n - 1, ops[n - 1]))
  {
    var t := LoadOne(prev, n - 1, ops[n - 1]);
    var ctx := prev.functions[prev.last];
    assert t.functions == prev.functions[prev.last := ctx.(labels := ctx.labels[ops[n - 1].operands[0] := n - 1])];
    SamePositionsStep(ops, n, prev, t);
    LabelEntries(ops, n, prev, t);
  }

  lemma LabelEntries(ops: seq<Instruction>, n: nat, prev: Table, t: Table)
    requires 0 < n <= |ops| && EntriesDescribe(ops, n - 1, prev) && CurrentIsLatest(ops, n - 1, prev)
    requires ops[n - 1].op == Label && ops[n - 1].operands != []
    requires prev.last in prev.functions
    requires var ctx := prev.functions[prev.last];
      t.functions == prev.functions[prev.last := ctx.(labels := ctx.labels[ops[n - 1].operands[0] := n - 1])]
    ensures EntriesDescribe(ops, n, t)
  {
    forall other | other in t.functions
      ensures EntryDescribes(ops, n, other, t.functions[other])
    {
      if other != prev.last {
        EntryDescribesGrows(ops, n - 1, other, prev.functions[other]);
      } else {
        LabelEntryDescribes(ops, n, prev.last, prev.functions[prev.last]);
      }
    }
  }

  /** A step that is not a FUN_BEGIN and moves no entry keeps everything
      but the entries' descriptions. */
  lemma SamePositionsStep(ops: seq<Instruction>, n: nat, prev: Table, t: Table)
    requires 0 < n <= |ops| && ops[n - 1].op != FunBegin
    requires LatestWins(ops, n - 1, prev) && AllDeclared(ops, n - 1, prev) && CurrentIsLatest(ops, n - 1, prev)
    requires t.last == prev.last && t.functions.Keys == prev.functions.Keys
    requires forall name :: name in t.functions ==> t.functions[name].pos == prev.functions[name].pos
    ensures LatestWins(ops, n, t) && AllDeclared(ops, n, t) && CurrentIsLatest(ops, n, t)
  {
  }

  /** Adding the LABEL at `n - 1` to the current function's entry keeps the
      entry describing the program. */
  lemma LabelEntryDescribes(ops: seq<Instruction>, n: nat, name: string, ctx: FunctionContext)
    requires 0 < n <= |ops| && EntryDescribes(ops, n - 1, name, ctx)
    requires ops[n - 1].op == Label && ops[n - 1].operands != []
    requires forall q :: ctx.pos < q < n ==> ops[q].op != FunBegin
    ensures EntryDescribes(ops, n, name, ctx.(labels := ctx.labels[ops[n - 1].operands[0] := n - 1]))
  {
  }

  /** Any other step keeps `LoadedFrom`. */
  lemma LoadOtherStep(ops: seq<Instruction>, n: nat, prev: Table)
    requires 0 < n <= |ops| && LoadedFrom(ops, n - 1, prev)
    requires ops[n - 1].op != FunBegin && ops[n - 1].op != Label
    ensures LoadedFrom(ops, n, LoadOne(prev, n - 1, ops[n - 1]))
  {
    assert LoadOne(prev, n - 1, ops[n - 1]) == prev;
    forall name | name in prev.functions
      ensures EntryDescribes(ops, n, name, prev.functions[name])
    {
      EntryDescribesGrows(ops, n - 1, name, prev.functions[name]);
    }
    SamePositionsStep(ops, n, prev, prev);
  }

  lemma EntryDescribesGrows(ops: seq<Instruction>, n: nat, name: string, ctx: FunctionContext)
    requires n < |ops| && EntryDescribes(ops, n, name, ctx)
    ensures EntryDescribes(ops, n + 1, name, ctx)
  {
  }

  /** Loading from an empty table gives a table that describes the program
      (`LoadedFrom`). */
  lemma {:induction false} LoadSound(ops: seq<Instruction>, n: nat)
    requires n <= |ops| && Loadable(ops, Table(map[], ""))
    ensures LoadedFrom(ops, n, Load(ops, n, Table(map[], "")))
  {
    if n > 0 {
      LoadSound(ops, n - 1);
      var prev := Load(ops, n - 1, Table(map[], ""));
      if ops[n - 1].op == FunBegin {
        LoadFunBeginStep(ops, n, prev);
      } else if ops[n - 1].op == Label {
        assert FirstFunBegin(ops) < n - 1;
        LoadLabelStep(ops, n, prev);
      } else {
        LoadOtherStep(ops, n, prev);
      }
    }
  }

  /** The frame `ReadFunctions` pushes for `main`. */
  function MainFrame(ctx: FunctionContext): Frame {
    Frame([], map[], map[], MainCalledPos, ctx)
  }

  /** What `ReadFunctions` leaves: the machine, the loader's current
      function, and the position it returns. */
  datatype Loaded = Loaded(m: Machine, last: string, entry: int)

  /** `ReadFunctions`: load the table; without `main`, set the return code
      to -1 and return -1; otherwise push `main`'s frame and return its
      FUN_BEGIN position. */
  function ReadFunctionsSpec(m: Machine, last: string, ops: seq<Instruction>): (r: Loaded)
    requires Loadable(ops, Table(m.functionTable, last))
  {
    var t := Load(ops, |ops|, Table(m.functionTable, last));
    var m1 := m.(functionTable := t.functions);
    if "main" !in t.functions then Loaded(m1.(returnCode := -1), t.last, -1)
    else Loaded(m1.(callStack := m.callStack + [MainFrame(t.functions["main"])]), t.last, t.functions["main"].pos)
  }

  /** The machine when the execution loop starts: `currentLine` is one past
      the position `ReadFunctions` returned. */
  function Boot(m: Machine, last: string, ops: seq<Instruction>): Machine
    requires Loadable(ops, Table(m.functionTable, last))
  {
    var r := ReadFunctionsSpec(m, last, ops);
    r.m.(currentLine := r.entry + 1)
  }

  /** Booting a fresh machine: with a FUN_BEGIN of `main` in the program,
      the call stack is exactly `main`'s frame (call site 10000000) and the
      loop starts right after the last FUN_BEGIN of `main`; without one, the
      return code is -1, the stack is empty and the loop starts at line 0. */
  lemma BootFresh(m: Machine, ops: seq<Instruction>)
    requires m.callStack == [] && m.functionTable == map[]
    requires Loadable(ops, Table(map[], ""))
    ensures var b := Boot(m, "", ops);
      if exists q :: 0 <= q < |ops| && NamesFunction(ops[q], "main") then
        && |b.callStack| == 1
        && b.callStack[0].calledPos == MainCalledPos
        && b.callStack[0].functionContext.functionName == "main"
        && b.callStack[0].operandStack == []
        && var p := b.currentLine - 1;
        && 0 <= p < |ops| && NamesFunction(ops[p], "main")
        && (forall q :: p < q < |ops| ==> !NamesFunction(ops[q], "main"))
        && b.returnCode == m.returnCode
      else
        b.callStack == [] && b.returnCode == -1 && b.currentLine == 0
  {
    LoadSound(ops, |ops|);
    var t := Load(ops, |ops|, Table(map[], ""));
    if q :| 0 <= q < |ops| && NamesFunction(ops[q], "main") {
      assert "main" in t.functions;
      BootWithMain(m, ops, t);
    }
  }

  /** `main`'s entry in the loaded table gives the frame and the start
      line of a boot. */
  lemma BootWithMain(m: Machine, ops: seq<Instruction>, t: Table)
    requires m.callStack == [] && m.functionTable == map[]
    requires Loadable(ops, Table(map[], ""))
    requires t == Load(ops, |ops|, Table(map[], "")) && LoadedFrom(ops, |ops|, t)
    requires "main" in t.functions
    ensures var b := Boot(m, "", ops);
      && b.callStack == [MainFrame(t.functions["main"])]
      && b.currentLine == t.functions["main"].pos + 1
      && b.returnCode == m.returnCode
      && var p := b.currentLine - 1;
      && 0 <= p < |ops| && NamesFunction(ops[p], "main")
      && (forall q :: p < q < |ops| ==> !NamesFunction(ops[q], "main"))
  {
    var ctx := t.functions["main"];
    var r := ReadFunctionsSpec(m, "", ops);
    assert r.m.callStack == [MainFrame(ctx)] && r.entry == ctx.pos;
    assert EntryDescribes(ops, |ops|, "main", ctx);
    assert LatestWins(ops, |ops|, t);
  }

  // ---------------------------------------------------------------------
  // Properties of the handlers

  /** ADD, SUB, MUL, DIV and MOD replace the two top values `first` (the
      top) and `second` below it by `second op first`: the stack is one
      shorter, everything below the two operands stays, and nothing else in
      the machine changes. */
  lemma ArithmeticEffect(m: Machine, op: Operation)
    requires IsArithmetic(op) && ExecArithmetic(m, op).Ok?
    ensures var m' := ExecArithmetic(m, op).m;
      var st, st' := Top(m).operandStack, Top(m').operandStack;
      && |st| >= 2
      && |st'| == |st| - 1
      && st'[..|st| - 2] == st[..|st| - 2]
      && Some(st'[|st'| - 1]) == Arith(op, st[|st| - 2], st[|st| - 1])
      && |m'.callStack| == |m.callStack|
      && m'.callStack[..|m.callStack| - 1] == m.callStack[..|m.callStack| - 1]
      && m' == m.(callStack := m'.callStack)
  {
  }

  /** An arithmetic instruction faults exactly when the stack has fewer than
      two values or C++ leaves the result undefined. */
  lemma ArithmeticFault(m: Machine, op: Operation)
    requires IsArithmetic(op)
    ensures ExecArithmetic(m, op).Fault? <==>
      m.callStack == [] || |Top(m).operandStack| < 2
      || Arith(op, Last(Pop(Top(m).operandStack)), Last(Top(m).operandStack)).None?
  {
  }

  /** CMP consumes the two top values and sets the flags for the old top
      against the value below it. */
  lemma CmpEffect(m: Machine)
    requires ExecCmp(m).Ok?
    ensures var m' := ExecCmp(m).m;
      var st := Top(m).operandStack;
      && |st| >= 2
      && Top(m').operandStack == st[..|st| - 2]
      && m'.compareResult == CmpFlags(st[|st| - 1], st[|st| - 2])
      && m'.heap == m.heap && m'.currentLine == m.currentLine
  {
  }

  /** The instructions whose variable lookup can miss, and the miss. */
  predicate LookupMiss(m: Machine, instr: Instruction) {
    && m.callStack != [] && instr.operands != []
    && match instr.op
       case IntegerLoad => instr.operands[0] !in Top(m).integerVariables
       case ArrayLoad | LoadFromIndex => instr.operands[0] !in Top(m).arrayVariables
       case _ => false
  }

  /** The instruction's documented stack effect on the current frame: the
      call stack keeps its depth, `pops` values leave the operand stack,
      `pushes` values arrive, and the values below are untouched. */
  predicate HasDocumentedEffect(m: Machine, m': Machine, e: StackEffect) {
    && m.callStack != [] && m'.callStack != []
    && |m'.callStack| == |m.callStack|
    && |Top(m').operandStack| + e.pops == |Top(m).operandStack| + e.pushes
    && e.pops <= |Top(m).operandStack|
    && Top(m).operandStack[..|Top(m).operandStack| - e.pops] <= Top(m').operandStack
  }

  /** Every instruction with a documented stack effect has that effect,
      unless it is a load whose variable is unknown, which changes nothing.
      (FUN_BEGIN, FUN_END and LABEL are documented as not touching the stack
      and leave the whole machine as it was.) */
  lemma DocumentedEffectHolds(m: Machine, instr: Instruction)
    requires DocumentedEffect(instr.op).Some?
    requires Exec(m, instr).Ok?
    ensures LookupMiss(m, instr) || instr.op in {FunBegin, FunEnd, Label} ==> Exec(m, instr).m == m
    ensures !LookupMiss(m, instr) && instr.op !in {FunBegin, FunEnd, Label} ==>
      HasDocumentedEffect(m, Exec(m, instr).m, DocumentedEffect(instr.op).value)
  {
    if IsArithmetic(instr.op) {
      ArithmeticEffect(m, instr.op);
    } else if instr.op in {Push, IntegerLoad, ArrayLoad, LoadFromIndex} {
      LoadsEffect(m, instr);
    } else if instr.op in {IntegerStore, ArrayStore, StoreInIndex} {
      StoresEffect(m, instr);
    } else {
      OtherEffect(m, instr);
    }
  }

  lemma LoadsEffect(m: Machine, instr: Instruction)
    requires instr.op in {Push, IntegerLoad, ArrayLoad, LoadFromIndex}
    requires Exec(m, instr).Ok?
    ensures LookupMiss(m, instr) ==> Exec(m, instr).m == m
    ensures !LookupMiss(m, instr) ==> HasDocumentedEffect(m, Exec(m, instr).m, DocumentedEffect(instr.op).value)
  {
  }

  lemma StoresEffect(m: Machine, instr: Instruction)
    requires instr.op in {IntegerStore, ArrayStore, StoreInIndex}
    requires Exec(m, instr).Ok?
    ensures HasDocumentedEffect(m, Exec(m, instr).m, DocumentedEffect(instr.op).value)
  {
  }

  lemma OtherEffect(m: Machine, instr: Instruction)
    requires instr.op in {NewArray, Print, Cmp, FunBegin, FunEnd, Label, Jump, JumpEq, JumpNe, JumpLt, JumpLe, JumpGt, JumpGe}
    requires Exec(m, instr).Ok?
    ensures instr.op in {FunBegin, FunEnd, Label} ==> Exec(m, instr).m == m
    ensures instr.op !in {FunBegin, FunEnd, Label} ==> HasDocumentedEffect(m, Exec(m, instr).m, DocumentedEffect(instr.op).value)
  {
    if instr.op in {FunBegin, FunEnd, Label} {
      MarkersEffect(m, instr);
    } else if instr.op in {Jump, JumpEq, JumpNe, JumpLt, JumpLe, JumpGt, JumpGe} {
      JumpsEffect(m, instr);
    } else {
      CmpArrayPrintEffect(m, instr);
    }
  }

  lemma MarkersEffect(m: Machine, instr: Instruction)
    requires instr.op in {FunBegin, FunEnd, Label}
    requires Exec(m, instr).Ok?
    ensures Exec(m, instr).m == m
  {
  }

  lemma JumpsEffect(m: Machine, instr: Instruction)
    requires instr.op in {Jump, JumpEq, JumpNe, JumpLt, JumpLe, JumpGt, JumpGe}
    requires Exec(m, instr).Ok?
    ensures HasDocumentedEffect(m, Exec(m, instr).m, DocumentedEffect(instr.op).value)
  {
  }

  lemma CmpArrayPrintEffect(m: Machine, instr: Instruction)
    requires instr.op in {NewArray, Print, Cmp}
    requires Exec(m, instr).Ok?
    ensures HasDocumentedEffect(m, Exec(m, instr).m, DocumentedEffect(instr.op).value)
  {
  }

  /** JUMP continues after the LABEL its label is recorded at; a conditional
      jump does so when its flag is set and otherwise continues with the
      next instruction. Nothing but the counter changes. */
  lemma JumpLands(ops: seq<Instruction>, m: Machine)
    requires Running(ops, m) && m.callStack != []
    requires IsJump(ops[m.currentLine].op) && ops[m.currentLine].operands != []
    requires ops[m.currentLine].operands[0] in Top(m).functionContext.labels
    ensures Step(ops, m).Ok?
    ensures var instr := ops[m.currentLine];
      var target := Top(m).functionContext.labels[instr.operands[0]];
      Step(ops, m).m ==
        if instr.op == Jump || FlagOf(instr.op, m.compareResult) then m.(currentLine := target + 1)
        else m.(currentLine := m.currentLine + 1)
  {
    var instr := ops[m.currentLine];
    ExecIsJump(m, instr);
    if instr.op == Jump || FlagOf(instr.op, m.compareResult) {
      JumpToKnown(m, instr.operands[0]);
      StepOfExec(ops, m, m.(currentLine := Top(m).functionContext.labels[instr.operands[0]]));
    } else {
      StepOfExec(ops, m, m);
    }
  }

  lemma ExecIsJump(m: Machine, instr: Instruction)
    requires IsJump(instr.op)
    ensures Exec(m, instr) == ExecJump(m, instr.op, instr.operands)
  {
  }

  /** A jump to a label the frame knows changes nothing but the counter. */
  lemma JumpToKnown(m: Machine, labelName: string)
    requires m.callStack != [] && labelName in Top(m).functionContext.labels
    ensures JumpTo(m, labelName) == Ok(m.(currentLine := Top(m).functionContext.labels[labelName]))
  {
    var f := Top(m);
    var labels := f.functionContext.labels;
    assert labels[labelName := labels[labelName]] == labels;
    assert f.(functionContext := f.functionContext.(labels := labels)) == f;
    assert m.callStack[..|m.callStack| - 1] + [f] == m.callStack;
  }

  /** A turn of the loop is the handler's effect, then the counter moves
      on. */
  lemma StepOfExec(ops: seq<Instruction>, m: Machine, x: Machine)
    requires Running(ops, m) && Exec(m, ops[m.currentLine]) == Ok(x)
    ensures Step(ops, m) == Ok(x.(currentLine := x.currentLine + 1))
  {
  }

  /** The parameters have pairwise distinct names. */
  predicate DistinctNames(params: seq<Param>) {
    forall i, j :: 0 <= i < j < |params| ==> params[i].name != params[j].name
  }

  /** Binding gives parameter i the value i places below the top, in the map
      of its kind, over whatever the maps held. */
  lemma {:induction false} BindParamsValues(params: seq<Param>, stack: seq<int>, ints: map<string, int>, arrays: map<string, int>)
    requires |params| <= |stack| && DistinctNames(params)
    ensures var b := BindParams(params, stack, ints, arrays).value;
      forall i :: 0 <= i < |params| ==>
        if params[i].kind == IntegerValue then
          params[i].name in b.integerVariables && b.integerVariables[params[i].name] == stack[|stack| - 1 - i]
        else
          params[i].name in b.arrayVariables && b.arrayVariables[params[i].name] == stack[|stack| - 1 - i]
    decreases params
  {
    if params != [] {
      var p := params[0];
      var v := Last(stack);
      var ints', arrays' := if p.kind == IntegerValue then ints[p.name := v] else ints,
                            if p.kind == IntegerValue then arrays else arrays[p.name := v];
      BindParamsValues(params[1..], Pop(stack), ints', arrays');
      BindParamsUntouched(params[1..], Pop(stack), ints', arrays', p.name);
      var b := BindParams(params, stack, ints, arrays).value;
      forall i | 1 <= i < |params|
        ensures if params[i].kind == IntegerValue then
          params[i].name in b.integerVariables && b.integerVariables[params[i].name] == stack[|stack| - 1 - i]
        else
          params[i].name in b.arrayVariables && b.arrayVariables[params[i].name] == stack[|stack| - 1 - i]
      {
        assert params[1..][i - 1] == params[i];
        assert Pop(stack)[|Pop(stack)| - 1 - (i - 1)] == stack[|stack| - 1 - i];
      }
    }
  }

  /** Binding leaves the entries for a name no parameter has. */
  lemma {:induction false} BindParamsUntouched(params: seq<Param>, stack: seq<int>, ints: map<string, int>, arrays: map<string, int>, name: string)
    requires |params| <= |stack|
    requires forall i :: 0 <= i < |params| ==> params[i].name != name
    ensures var b := BindParams(params, stack, ints, arrays).value;
      && (name in ints ==> name in b.integerVariables && b.integerVariables[name] == ints[name])
      && (name in arrays ==> name in b.arrayVariables && b.arrayVariables[name] == arrays[name])
    decreases params
  {
    if params != [] {
      var p := params[0];
      var v := Last(stack);
      if p.kind == IntegerValue {
        BindParamsUntouched(params[1..], Pop(stack), ints[p.name := v], arrays, name);
      } else {
        BindParamsUntouched(params[1..], Pop(stack), ints, arrays[p.name := v], name);
      }
    }
  }

  /** FUN_CALL pops one caller value per parameter, parameter 1 taking the
      old top, binds each into the new frame by kind, records the call site
      and continues at the callee's FUN_BEGIN (the loop's increment then
      moves past it). */
  lemma CallBindsArguments(m: Machine, name: string)
    requires ExecCall(m, [name]).Ok?
    requires DistinctNames(m.functionTable[name].paramsDeclaration)
    ensures var m', ctx := ExecCall(m, [name]).m, m.functionTable[name];
      var st, k := Top(m).operandStack, |ctx.paramsDeclaration|;
      && |m'.callStack| == |m.callStack| + 1
      && m'.currentLine == ctx.pos
      && Top(m').calledPos == m.currentLine
      && Top(m').functionContext == ctx
      && Top(m').operandStack == []
      && m'.callStack[|m.callStack| - 1] == Top(m).(operandStack := st[..|st| - k])
      && (forall i :: 0 <= i < k ==>
            var p := ctx.paramsDeclaration[i];
            if p.kind == IntegerValue then p.name in Top(m').integerVariables && Top(m').integerVariables[p.name] == st[|st| - 1 - i]
            else p.name in Top(m').arrayVariables && Top(m').arrayVariables[p.name] == st[|st| - 1 - i])
  {
    var ctx := m.functionTable[name];
    BindParamsValues(ctx.paramsDeclaration, Top(m).operandStack, map[], map[]);
  }

  /** A FUN_CALL followed, whatever the callee does to its own frame, by a
      RETURN from that frame, resumes right after the FUN_CALL with the
      arguments consumed and the callee's top value pushed onto the caller's
      stack. */
  lemma CallReturnRoundTrip(m: Machine, name: string, callee: Frame)
    requires ExecCall(m, [name]).Ok?
    requires name != "main"
    requires callee.calledPos == Top(ExecCall(m, [name]).m).calledPos
    requires callee.functionContext.functionName == name
    requires callee.operandStack != []
    ensures var m1 := ExecCall(m, [name]).m;
      var st, k := Top(m).operandStack, |m.functionTable[name].paramsDeclaration|;
      && ExecReturn(SetTop(m1, callee)).Ok?
      && var m2 := ExecReturn(SetTop(m1, callee)).m;
      && m2.currentLine == m.currentLine
      && m2.callStack == SetTop(m, Top(m).(operandStack := st[..|st| - k] + [Last(callee.operandStack)])).callStack
  {
  }

  /** RETURN in `main` sets the return code to the top value, keeps the frame
      and continues at its call site 10000000, which ends any program with
      no more than 10000000 instructions. */
  lemma ReturnFromMain(ops: seq<Instruction>, m: Machine)
    requires Running(ops, m) && ops[m.currentLine].op == Return
    requires m.callStack != [] && Top(m).operandStack != []
    requires Top(m).functionContext.functionName == "main" && Top(m).calledPos == MainCalledPos
    requires |ops| <= MainCalledPos
    ensures Step(ops, m).Ok?
    ensures Step(ops, m).m == m.(returnCode := Last(Top(m).operandStack), currentLine := MainCalledPos + 1)
    ensures !Running(ops, Step(ops, m).m)
  {
  }
}
