/** The AST-to-bytecode lowering (`ToBytecode`). The visitor's fields — the
    builder's instructions, the label counter, the labels `break` and
    `continue` jump to, the assignment flag and the per-function type map —
    form a `GenState` that every visit takes and returns. */
module Generator {
  import opened Basics
  import opened Bytecode
  import opened Decimal
  import opened MachineSpec
  import opened Ast

  datatype GenState = GenState(
    code: seq<Instruction>,
    labelCtr: nat,
    whileConditionLabel: string,
    whileAfterLabel: string,
    isAssignment: bool,
    typeMap: map<string, TypeKind>)

  const InitialState := GenState([], 0, "", "", false, map[])

  // ---------------------------------------------------------------------
  // Labels

  /** `code` begins with `prefix`. */
  predicate Extends(prefix: seq<Instruction>, code: seq<Instruction>) {
    |prefix| <= |code| && code[..|prefix|] == prefix
  }

  /** The counter value a LABEL names: its one operand read as a decimal
      number; -1 for anything else. */
  function LabelValue(instr: Instruction): int {
    if instr.op == Label && |instr.operands| == 1 && AllDigits(instr.operands[0])
    then DigitsValue(instr.operands[0])
    else -1
  }

  /** `c1` extends `c0`; every LABEL appended names a counter value in
      `[lo, hi)`, and no two appended LABELs name the same value. */
  predicate FreshLabels(c0: seq<Instruction>, c1: seq<Instruction>, lo: nat, hi: nat) {
    && Extends(c0, c1)
    && lo <= hi
    && (forall i :: |c0| <= i < |c1| && c1[i].op == Label ==> lo <= LabelValue(c1[i]) < hi)
    && (forall i, j :: |c0| <= i < j < |c1| && c1[i].op == Label && c1[j].op == Label ==>
          LabelValue(c1[i]) != LabelValue(c1[j]))
  }

  /** No LABEL appended after `c0` names the counter value `k`. */
  predicate Avoids(c0: seq<Instruction>, c1: seq<Instruction>, k: int) {
    forall i :: |c0| <= i < |c1| && c1[i].op == Label ==> LabelValue(c1[i]) != k
  }

  /** The LABEL instruction for counter value `k`. */
  function LabelOf(k: nat): Instruction {
    Instruction(Label, [NatToString(k)])
  }

  lemma LabelValueOf(k: nat)
    ensures LabelValue(LabelOf(k)) == k
  {
    DigitsValueOfNatToString(k);
  }

  /** Appending an instruction other than LABEL keeps the labels fresh and
      every value avoided. */
  lemma FreshPlain(c0: seq<Instruction>, c1: seq<Instruction>, lo: nat, hi: nat, x: Instruction)
    requires FreshLabels(c0, c1, lo, hi) && x.op != Label
    ensures FreshLabels(c0, c1 + [x], lo, hi)
    ensures forall k :: Avoids(c0, c1, k) ==> Avoids(c0, c1 + [x], k)
  {
    assert (c1 + [x])[..|c0|] == c1[..|c0|];
  }

  /** Appending the LABEL for a value `k` not yet used keeps the labels
      distinct; the range widens to take `k` in. */
  lemma FreshLabel(c0: seq<Instruction>, c1: seq<Instruction>, lo: nat, hi: nat, k: nat, lo2: nat, hi2: nat)
    requires FreshLabels(c0, c1, lo, hi) && Avoids(c0, c1, k)
    requires lo2 <= lo && hi <= hi2 && lo2 <= k < hi2
    ensures FreshLabels(c0, c1 + [LabelOf(k)], lo2, hi2)
    ensures forall k' :: Avoids(c0, c1, k') && k' != k ==> Avoids(c0, c1 + [LabelOf(k)], k')
  {
    LabelValueOf(k);
    assert (c1 + [LabelOf(k)])[..|c0|] == c1[..|c0|];
  }

  /** Two fresh stretches whose ranges follow each other make one. */
  lemma FreshTrans(c0: seq<Instruction>, c1: seq<Instruction>, c2: seq<Instruction>, lo: nat, mid: nat, hi: nat)
    requires FreshLabels(c0, c1, lo, mid) && FreshLabels(c1, c2, mid, hi)
    ensures FreshLabels(c0, c2, lo, hi)
    ensures forall k :: Avoids(c0, c1, k) && Avoids(c1, c2, k) ==> Avoids(c0, c2, k)
  {
    assert c2[..|c0|] == c1[..|c0|];
    forall i | |c0| <= i < |c1|
      ensures c2[i] == c1[i]
    {
      assert c2[..|c1|][i] == c1[i];
    }
  }

  /** A stretch whose labels lie in `[lo, hi)` avoids every value outside. */
  lemma FreshAvoids(c0: seq<Instruction>, c1: seq<Instruction>, lo: nat, hi: nat, k: int)
    requires FreshLabels(c0, c1, lo, hi) && (k < lo || hi <= k)
    ensures Avoids(c0, c1, k)
  {
  }

  /** Closing a stretch minted from `k + 1` on with the LABEL for `k`. */
  lemma CloseLabel(c0: seq<Instruction>, c1: seq<Instruction>, k: nat, n: nat)
    requires FreshLabels(c0, c1, k + 1, n)
    ensures FreshLabels(c0, c1 + [LabelOf(k)], k, n)
  {
    FreshAvoids(c0, c1, k + 1, n, k);
    FreshLabel(c0, c1, k + 1, n, k, k, n);
  }

  /** The labels of a `for`: the condition label `k` closes the
      initialisation, the after label `k + 1` closes everything. */
  lemma ForLabels(c0: seq<Instruction>, c3: seq<Instruction>, c9: seq<Instruction>, k: nat, n3: nat, n9: nat)
    requires FreshLabels(c0, c3, k + 2, n3) && FreshLabels(c3 + [LabelOf(k)], c9, n3, n9)
    ensures FreshLabels(c0, c9 + [LabelOf(k + 1)], k, n9)
  {
    FreshAvoids(c0, c3, k + 2, n3, k);
    FreshAvoids(c0, c3, k + 2, n3, k + 1);
    FreshLabel(c0, c3, k + 2, n3, k, k, n3);
    FreshAvoids(c3 + [LabelOf(k)], c9, n3, n9, k + 1);
    FreshTrans(c0, c3 + [LabelOf(k)], c9, k, n3, n9);
    FreshLabel(c0, c9, k, n9, k + 1, k, n9);
  }

  // ---------------------------------------------------------------------
  // Visitor state

  /** The code grows, the counter does not go back, and the labels the step
      appends are fresh: counter values minted during the step, each used by
      at most one LABEL. */
  predicate Fresh(st: GenState, r: GenState) {
    && st.labelCtr <= r.labelCtr
    && FreshLabels(st.code, r.code, st.labelCtr, r.labelCtr)
  }

  /** Lowering an expression leaves the loop labels, the assignment flag and
      the type map as they were. */
  predicate SameContext(st: GenState, r: GenState) {
    && r.whileConditionLabel == st.whileConditionLabel
    && r.whileAfterLabel == st.whileAfterLabel
    && r.isAssignment == st.isAssignment
    && r.typeMap == st.typeMap
  }

  lemma Chain(a: GenState, b: GenState, c: GenState)
    requires Fresh(a, b) && Fresh(b, c)
    ensures Fresh(a, c)
  {
    FreshTrans(a.code, b.code, c.code, a.labelCtr, b.labelCtr, c.labelCtr);
  }

  function Emit(st: GenState, op: Operation, operands: seq<string>): GenState {
    st.(code := st.code + [Instruction(op, operands)])
  }

  /** Appending an instruction other than LABEL is a fresh step. */
  lemma EmitFresh(st: GenState, op: Operation, operands: seq<string>)
    requires op != Label
    ensures Fresh(st, Emit(st, op, operands))
  {
    FreshPlain(st.code, st.code, st.labelCtr, st.labelCtr, Instruction(op, operands));
  }

  /** `newLabel`: the decimal text of the counter, which then moves on. */
  function NewLabel(st: GenState): (r: (GenState, string))
    ensures r.0 == st.(labelCtr := st.labelCtr + 1)
    ensures r.1 == NatToString(st.labelCtr)
    ensures AllDigits(r.1) && DigitsValue(r.1) == st.labelCtr
  {
    DigitsValueOfNatToString(st.labelCtr);
    (st.(labelCtr := st.labelCtr + 1), NatToString(st.labelCtr))
  }

  /** Labels minted by consecutive calls differ. */
  lemma NewLabelDistinct(st: GenState)
    ensures NewLabel(st).1 != NewLabel(NewLabel(st).0).1
  {
    DigitsValueOfNatToString(st.labelCtr);
    DigitsValueOfNatToString(st.labelCtr + 1);
  }

  /** An absent name reads as `Integer`, the value `operator[]` inserts. */
  function TypeOf(st: GenState, name: string): TypeKind {
    if name in st.typeMap then st.typeMap[name] else Integer
  }

  /** The jump taken when `rel` does not hold after `CMP`. */
  function NegatedJump(rel: Relation): (op: Operation)
    ensures IsConditionalJump(op)
  {
    match rel
    case Less => JumpGe
    case Equal => JumpNe
    case NotEqual => JumpEq
    case LessEq => JumpGt
    case Greater => JumpLe
    case GreaterEq => JumpLt
  }

  /** What `rel` means between the left and the right operand. */
  predicate Holds(rel: Relation, lhs: int, rhs: int) {
    match rel
    case Equal => lhs == rhs
    case NotEqual => lhs != rhs
    case Less => lhs < rhs
    case LessEq => lhs <= rhs
    case Greater => lhs > rhs
    case GreaterEq => lhs >= rhs
  }

  /** After `CMP` with the left operand on top, the negated jump is taken
      exactly when the relation fails. */
  lemma NegatedJumpCorrect(rel: Relation, lhs: int, rhs: int)
    ensures FlagOf(NegatedJump(rel), CmpFlags(lhs, rhs)) == !Holds(rel, lhs, rhs)
  {
  }

  /** The last instruction's first operand when it is a LABEL. */
  function LastLabel(code: seq<Instruction>): (r: Option<string>)
    ensures r.Some? <==> code != [] && code[|code| - 1].op == Label && |code[|code| - 1].operands| >= 1
  {
    if code != [] && code[|code| - 1].op == Label && |code[|code| - 1].operands| >= 1
    then Some(code[|code| - 1].operands[0])
    else None
  }

  // ---------------------------------------------------------------------
  // Expressions

  /** `visit(ExpressionAST)`: the right operand, then the left, so that the
      left one is on top for `CMP`; a comparison then leaves 1 or 0 through
      a negated jump over `PUSH "1"`. */
  function GenExpression(st: GenState, e: Expression): GenState
    decreases e, 1
  {
    match e
    case Plain(lhs) => GenSimple(st, lhs)
    case Relational(lhs, rel, rhs) =>
      var s3 := Emit(GenSimple(GenSimple(st, rhs), lhs), Cmp, []);
      var (s4, falseLabel) := NewLabel(s3);
      var (s5, afterLabel) := NewLabel(s4);
      GenRelationTail(s5, rel, falseLabel, afterLabel)
  }

  /** The instructions after `CMP` that turn the flags into 1 or 0. */
  function GenRelationTail(st: GenState, rel: Relation, falseLabel: string, afterLabel: string): GenState {
    var s1 := Emit(st, NegatedJump(rel), [falseLabel]);
    var s2 := Emit(s1, Push, ["1"]);
    var s3 := Emit(s2, Jump, [afterLabel]);
    var s4 := Emit(s3, Label, [falseLabel]);
    var s5 := Emit(s4, Push, ["0"]);
    Emit(s5, Label, [afterLabel])
  }

  /** The six instructions of the tail for counter value `k`. */
  function RelationTail(rel: Relation, k: nat): seq<Instruction> {
    [Instruction(NegatedJump(rel), [NatToString(k)]), Instruction(Push, ["1"]),
     Instruction(Jump, [NatToString(k + 1)]), LabelOf(k),
     Instruction(Push, ["0"]), LabelOf(k + 1)]
  }

  /** `visit(SimpleExpressionAST)`: the first term, then each further term
      followed by its ADD or SUB. */
  function GenSimple(st: GenState, e: SimpleExpression): GenState
    decreases e, 1
  {
    GenAddTerms(GenTerm(st, e.first), e, 0)
  }

  function AddOp(op: AddOperator): Operation {
    match op
    case Plus => Add
    case Minus => Sub
  }

  function GenAddTerms(st: GenState, e: SimpleExpression, i: nat): GenState
    requires i <= |e.rest|
    decreases e, 0, |e.rest| - i
  {
    if i == |e.rest| then st
    else GenAddTerms(Emit(GenTerm(st, e.rest[i].term), AddOp(e.rest[i].op), []), e, i + 1)
  }

  /** `visit(TermAST)`: the first operand, then each further operand
      followed by its MUL, DIV or MOD. */
  function GenTerm(st: GenState, t: Term): GenState
    decreases t, 1
  {
    GenMulTerms(GenMulOperand(st, t.first), t, 0)
  }

  function MulOp(op: MulOperator): Operation {
    match op
    case Multiple => Mul
    case Divide => Div
    case Modulo => Mod
  }

  function GenMulTerms(st: GenState, t: Term, i: nat): GenState
    requires i <= |t.rest|
    decreases t, 0, |t.rest| - i
  {
    if i == |t.rest| then st
    else GenMulTerms(Emit(GenMulOperand(st, t.rest[i].operand), MulOp(t.rest[i].op), []), t, i + 1)
  }

  /** `visit(MulOperandAST)` with the operand order corrected: a unary minus
      pushes 0 before the factor and subtracts after it, leaving
      `0 - factor`. */
  function GenMulOperand(st: GenState, m: MulOperand): GenState
    decreases m, 1
  {
    if m.unary == Some(UnaryMinus) then
      Emit(GenFactor(Emit(st, Push, ["0"]), m.factor), Sub, [])
    else
      GenFactor(st, m.factor)
  }

  /** `visit(MulOperandAST)` as the source writes it: the factor, then
      `PUSH "0"; SUB`, which leaves `factor - 0`. */
  function GenMulOperandAsWritten(st: GenState, m: MulOperand): GenState {
    var s1 := GenFactor(st, m.factor);
    if m.unary == Some(UnaryMinus) then Emit(Emit(s1, Push, ["0"]), Sub, []) else s1
  }

  /** The name's load or store: the array variant when the type map says
      `Array`, the store when lowering the target of an assignment. */
  function IdentifierOp(st: GenState, name: string): Operation {
    if st.isAssignment then
      if TypeOf(st, name) == Integer then IntegerStore else ArrayStore
    else
      if TypeOf(st, name) == Integer then IntegerLoad else ArrayLoad
  }

  function GenFactor(st: GenState, f: Factor): GenState
    decreases f, 1
  {
    match f
    case Identifier(name) => Emit(st, IdentifierOp(st, name), [name])
    case IntegerLiteral(text) => Emit(st, Push, [text])
    case ArrayInitialization(elements) => Emit(GenElements(st, f, 0), NewArray, [])
    case GetByIndex(name, index) =>
      var s1 := GenExpression(st.(isAssignment := false), index);
      Emit(s1.(isAssignment := st.isAssignment), if st.isAssignment then StoreInIndex else LoadFromIndex, [name])
    case ExpressionFactor(e) => GenExpression(st, e)
    case FunctionCall(name, args) => Emit(GenArgs(st, f, |args|), FunCall, [name])
  }

  /** The elements of an array initialisation, in order. */
  function GenElements(st: GenState, f: Factor, i: nat): GenState
    requires f.ArrayInitialization? && i <= |f.elements|
    decreases f, 0, |f.elements| - i
  {
    if i == |f.elements| then st
    else GenElements(GenExpression(st, f.elements[i]), f, i + 1)
  }

  /** The first `n` arguments of a call, last to first: `args[n - 1]`
      first, `args[0]` last. */
  function GenArgs(st: GenState, f: Factor, n: nat): GenState
    requires f.FunctionCall? && n <= |f.args|
    decreases f, 0, n
  {
    if n == 0 then st
    else GenArgs(GenExpression(st, f.args[n - 1]), f, n - 1)
  }

  // ---------------------------------------------------------------------
  // Statements

  /** `visit(VariableDeclarationAST)`: the name takes the declared type; an
      initialiser is stored with the store of that type, a missing one as
      `PUSH "0"; INTEGER_STORE` whatever the type. */
  function GenDeclaration(st: GenState, d: VariableDeclaration): GenState {
    var s1 := st.(typeMap := st.typeMap[d.name := d.typ.Kind()]);
    match d.init
    case Some(e) =>
      Emit(GenExpression(s1, e), if d.typ.Kind() == Array then ArrayStore else IntegerStore, [d.name])
    case None =>
      Emit(Emit(s1, Push, ["0"]), IntegerStore, [d.name])
  }

  /** RHS, then LHS, then CMP: the left operand ends on top. */
  function GenCompare(st: GenState, c: Condition): GenState {
    Emit(GenSimple(GenSimple(st, c.rhs), c.lhs), Cmp, [])
  }

  function GenStatement(st: GenState, s: Statement): GenState
    decreases s, 2
  {
    match s
    case Declare(d) => GenDeclaration(st, d)
    case If(_, _, _) => GenIf(st, s)
    case For(_, _, _, _) => GenFor(st, s)
    case While(_, _) => GenWhile(st, s)
    case Break => Emit(st, Jump, [st.whileAfterLabel])
    case Continue => Emit(st, Jump, [st.whileConditionLabel])
    case Return(value) =>
      Emit(if value.Some? then GenExpression(st, value.value) else Emit(st, Push, ["0"]), Operation.Return, [])
    case Assign(lhs, rhs) => GenAssign(st, lhs, rhs)
    case Print(e) => Emit(GenExpression(st, e), Operation.Print, [])
  }

  /** `visit(AssignStatementAST)`: the value, then the target lowered as a
      store; without a value the target is lowered as it stands. */
  function GenAssign(st: GenState, lhs: Factor, rhs: Option<Expression>): GenState {
    match rhs
    case Some(e) => GenFactor(GenExpression(st, e).(isAssignment := true), lhs).(isAssignment := false)
    case None => GenFactor(st, lhs)
  }

  /** `visit(IfStatementAST)`. */
  function GenIf(st: GenState, s: Statement): GenState
    requires s.If?
    decreases s, 1
  {
    GenIfBranches(GenCompare(st, s.condition), s)
  }

  /** After the comparison: a fresh label the negated jump goes to when the
      condition fails, the body, a jump and the label; with an else part the
      jump goes over it to a second fresh label. */
  function GenIfBranches(st: GenState, s: Statement): GenState
    requires s.If?
    decreases s, 0
  {
    var (s2, falseLabel) := NewLabel(st);
    var s4 := GenBlock(Emit(s2, NegatedJump(s.condition.rel), [falseLabel]), s.body, 0);
    if s.elseBody.statements == [] then
      Emit(Emit(s4, Jump, [falseLabel]), Label, [falseLabel])
    else
      var (s6, afterLabel) := NewLabel(s4);
      var s8 := GenBlock(Emit(Emit(s6, Jump, [afterLabel]), Label, [falseLabel]), s.elseBody, 0);
      Emit(s8, Label, [afterLabel])
  }

  /** `visit(ForStatementAST)`: the condition and after labels are minted
      before the initialisation, and the enclosing loop labels come back
      after the loop. */
  function GenFor(st: GenState, s: Statement): GenState
    requires s.For?
    decreases s, 1
  {
    var (s1, condLabel) := NewLabel(st);
    var (s2, afterLabel) := NewLabel(s1);
    var s4 := Emit(GenStatement(s2, s.initialization), Label, [condLabel]);
    var r := Emit(GenLoop(s4, s, condLabel, afterLabel), Label, [afterLabel]);
    r.(whileConditionLabel := st.whileConditionLabel, whileAfterLabel := st.whileAfterLabel)
  }

  /** `visit(WhileStatementAST)`: a LABEL just emitted serves as the
      condition label; otherwise a fresh one is minted and emitted. */
  function GenWhile(st: GenState, s: Statement): GenState
    requires s.While?
    decreases s, 1
  {
    var (s1, afterLabel) := NewLabel(st);
    var (s2, condLabel) := WhileCondition(s1);
    var r := Emit(GenLoop(s2, s, condLabel, afterLabel), Label, [afterLabel]);
    r.(whileConditionLabel := st.whileConditionLabel, whileAfterLabel := st.whileAfterLabel)
  }

  /** The condition label of a `while`: the label of the LABEL just
      emitted, if the code ends with one; otherwise a fresh label, minted
      and emitted. */
  function WhileCondition(st: GenState): (GenState, string) {
    var last := LastLabel(st.code);
    if last.Some? then (st, last.value)
    else
      var (s1, l) := NewLabel(st);
      (Emit(s1, Label, [l]), l)
  }

  /** The part `for` and `while` share, from the condition label on: the
      comparison, the negated jump to the after label, the body with the
      loop labels set, a `for`'s update, and the jump back. */
  function GenLoop(st: GenState, s: Statement, condLabel: string, afterLabel: string): GenState
    requires s.For? || s.While?
    decreases s, 0
  {
    var s2 := Emit(GenCompare(st, s.condition), NegatedJump(s.condition.rel), [afterLabel]);
    var s3 := GenBlock(s2.(whileConditionLabel := condLabel, whileAfterLabel := afterLabel), s.body, 0);
    var s4 := if s.For? then GenStatement(s3, s.update) else s3;
    Emit(s4, Jump, [condLabel])
  }

  /** `visit(StatementSequenceAST)` from the `i`-th statement on. */
  function GenBlock(st: GenState, b: Block, i: nat): GenState
    requires i <= |b.statements|
    decreases b, |b.statements| - i
  {
    if i == |b.statements| then st
    else GenBlock(GenStatement(st, b.statements[i]), b, i + 1)
  }

  // ---------------------------------------------------------------------
  // Every lowering step is fresh

  /** The tail of a comparison appends `RelationTail` and mints two
      labels. */
  lemma RelationTailCode(st: GenState, rel: Relation)
    ensures var k := st.labelCtr;
      GenRelationTail(st.(labelCtr := k + 2), rel, NatToString(k), NatToString(k + 1))
        == st.(labelCtr := k + 2, code := st.code + RelationTail(rel, k))
  {
  }

  /** The two LABELs of the tail name `k` and `k + 1`. */
  lemma RelationTailLabels(c: seq<Instruction>, rel: Relation, k: nat)
    ensures FreshLabels(c, c + RelationTail(rel, k), k, k + 2)
  {
    var t := RelationTail(rel, k);
    var c1 := c + [t[0]];
    var c2 := c1 + [t[1]];
    var c3 := c2 + [t[2]];
    var c4 := c3 + [t[3]];
    var c5 := c4 + [t[4]];
    assert c + t == c5 + [t[5]];
    assert c[..|c|] == c;
    FreshPlain(c, c, k + 2, k + 2, t[0]);
    FreshPlain(c, c1, k + 2, k + 2, t[1]);
    FreshPlain(c, c2, k + 2, k + 2, t[2]);
    FreshLabel(c, c3, k + 2, k + 2, k, k, k + 2);
    FreshPlain(c, c4, k, k + 2, t[4]);
    LabelValueOf(k);
    FreshLabel(c, c5, k, k + 2, k + 1, k, k + 2);
  }

  lemma {:induction false} ExpressionFresh(st: GenState, e: Expression)
    ensures Fresh(st, GenExpression(st, e)) && SameContext(st, GenExpression(st, e))
    decreases e, 1
  {
    match e
    case Plain(lhs) => SimpleFresh(st, lhs);
    case Relational(lhs, rel, rhs) =>
      var s1 := GenSimple(st, rhs);
      var s2 := GenSimple(s1, lhs);
      SimpleFresh(st, rhs);
      SimpleFresh(s1, lhs);
      Chain(st, s1, s2);
      var s3 := Emit(s2, Cmp, []);
      EmitFresh(s2, Cmp, []);
      Chain(st, s2, s3);
      RelationStepFresh(s3, rel);
      Chain(st, s3, GenExpression(st, e));
  }

  /** Minting the two labels and appending the tail is a fresh step. */
  lemma RelationStepFresh(s3: GenState, rel: Relation)
    ensures var (s4, falseLabel) := NewLabel(s3);
      var (s5, afterLabel) := NewLabel(s4);
      var r := GenRelationTail(s5, rel, falseLabel, afterLabel);
      Fresh(s3, r) && SameContext(s3, r)
  {
    RelationTailCode(s3, rel);
    RelationTailLabels(s3.code, rel, s3.labelCtr);
  }

  lemma {:induction false} SimpleFresh(st: GenState, e: SimpleExpression)
    ensures Fresh(st, GenSimple(st, e)) && SameContext(st, GenSimple(st, e))
    decreases e, 1
  {
    var s1 := GenTerm(st, e.first);
    TermFresh(st, e.first);
    AddTermsFresh(s1, e, 0);
    Chain(st, s1, GenSimple(st, e));
  }

  lemma {:induction false} AddTermsFresh(st: GenState, e: SimpleExpression, i: nat)
    requires i <= |e.rest|
    ensures Fresh(st, GenAddTerms(st, e, i)) && SameContext(st, GenAddTerms(st, e, i))
    decreases e, 0, |e.rest| - i
  {
    if i == |e.rest| {
      assert st.code[..|st.code|] == st.code;
    } else {
      var s1 := GenTerm(st, e.rest[i].term);
      TermFresh(st, e.rest[i].term);
      var s2 := Emit(s1, AddOp(e.rest[i].op), []);
      EmitFresh(s1, AddOp(e.rest[i].op), []);
      Chain(st, s1, s2);
      AddTermsFresh(s2, e, i + 1);
      Chain(st, s2, GenAddTerms(s2, e, i + 1));
    }
  }

  lemma {:induction false} TermFresh(st: GenState, t: Term)
    ensures Fresh(st, GenTerm(st, t)) && SameContext(st, GenTerm(st, t))
    decreases t, 1
  {
    var s1 := GenMulOperand(st, t.first);
    MulOperandFresh(st, t.first);
    MulTermsFresh(s1, t, 0);
    Chain(st, s1, GenTerm(st, t));
  }

  lemma {:induction false} MulTermsFresh(st: GenState, t: Term, i: nat)
    requires i <= |t.rest|
    ensures Fresh(st, GenMulTerms(st, t, i)) && SameContext(st, GenMulTerms(st, t, i))
    decreases t, 0, |t.rest| - i
  {
    if i == |t.rest| {
      EmitFresh(st, Mul, []);
    } else {
      var s1 := GenMulOperand(st, t.rest[i].operand);
      MulOperandFresh(st, t.rest[i].operand);
      var s2 := Emit(s1, MulOp(t.rest[i].op), []);
      EmitFresh(s1, MulOp(t.rest[i].op), []);
      Chain(st, s1, s2);
      MulTermsFresh(s2, t, i + 1);
      Chain(st, s2, GenMulTerms(s2, t, i + 1));
    }
  }

  lemma {:induction false} MulOperandFresh(st: GenState, m: MulOperand)
    ensures Fresh(st, GenMulOperand(st, m)) && SameContext(st, GenMulOperand(st, m))
    decreases m, 1
  {
    if m.unary == Some(UnaryMinus) {
      var s1 := Emit(st, Push, ["0"]);
      EmitFresh(st, Push, ["0"]);
      var s2 := GenFactor(s1, m.factor);
      FactorFresh(s1, m.factor);
      Chain(st, s1, s2);
      EmitFresh(s2, Sub, []);
      Chain(st, s2, Emit(s2, Sub, []));
    } else {
      FactorFresh(st, m.factor);
    }
  }

  lemma {:induction false} FactorFresh(st: GenState, f: Factor)
    ensures Fresh(st, GenFactor(st, f)) && SameContext(st, GenFactor(st, f))
    decreases f, 1
  {
    match f
    case Identifier(name) => EmitFresh(st, IdentifierOp(st, name), [name]);
    case IntegerLiteral(text) => EmitFresh(st, Push, [text]);
    case ArrayInitialization(elements) =>
      var s1 := GenElements(st, f, 0);
      ElementsFresh(st, f, 0);
      EmitFresh(s1, NewArray, []);
      Chain(st, s1, Emit(s1, NewArray, []));
    case GetByIndex(name, index) =>
      var s1 := GenExpression(st.(isAssignment := false), index);
      ExpressionFresh(st.(isAssignment := false), index);
      var s2 := s1.(isAssignment := st.isAssignment);
      var op := if st.isAssignment then StoreInIndex else LoadFromIndex;
      EmitFresh(s2, op, [name]);
      Chain(st, s2, Emit(s2, op, [name]));
    case ExpressionFactor(e) => ExpressionFresh(st, e);
    case FunctionCall(name, args) =>
      var s1 := GenArgs(st, f, |args|);
      ArgsFresh(st, f, |args|);
      EmitFresh(s1, FunCall, [name]);
      Chain(st, s1, Emit(s1, FunCall, [name]));
  }

  lemma {:induction false} ElementsFresh(st: GenState, f: Factor, i: nat)
    requires f.ArrayInitialization? && i <= |f.elements|
    ensures Fresh(st, GenElements(st, f, i)) && SameContext(st, GenElements(st, f, i))
    decreases f, 0, |f.elements| - i
  {
    if i == |f.elements| {
      assert st.code[..|st.code|] == st.code;
    } else {
      var s1 := GenExpression(st, f.elements[i]);
      ExpressionFresh(st, f.elements[i]);
      ElementsFresh(s1, f, i + 1);
      Chain(st, s1, GenElements(s1, f, i + 1));
    }
  }

  lemma {:induction false} ArgsFresh(st: GenState, f: Factor, n: nat)
    requires f.FunctionCall? && n <= |f.args|
    ensures Fresh(st, GenArgs(st, f, n)) && SameContext(st, GenArgs(st, f, n))
    decreases f, 0, n
  {
    if n == 0 {
      assert st.code[..|st.code|] == st.code;
    } else {
      var s1 := GenExpression(st, f.args[n - 1]);
      ExpressionFresh(st, f.args[n - 1]);
      ArgsFresh(s1, f, n - 1);
      Chain(st, s1, GenArgs(s1, f, n - 1));
    }
  }

  /** A statement keeps the enclosing loop's labels, and leaves the
      assignment flag clear when it was clear. */
  predicate SameLoop(st: GenState, r: GenState) {
    && r.whileConditionLabel == st.whileConditionLabel
    && r.whileAfterLabel == st.whileAfterLabel
    && (!st.isAssignment ==> !r.isAssignment)
  }

  lemma DeclarationFresh(st: GenState, d: VariableDeclaration)
    ensures var r := GenDeclaration(st, d);
      && Fresh(st, r)
      && r.typeMap == st.typeMap[d.name := d.typ.Kind()]
      && SameContext(st, r.(typeMap := st.typeMap))
  {
    var s1 := st.(typeMap := st.typeMap[d.name := d.typ.Kind()]);
    match d.init
    case Some(e) =>
      var s2 := GenExpression(s1, e);
      ExpressionFresh(s1, e);
      var op := if d.typ.Kind() == Array then ArrayStore else IntegerStore;
      EmitFresh(s2, op, [d.name]);
      Chain(s1, s2, Emit(s2, op, [d.name]));
    case None =>
      var s2 := Emit(s1, Push, ["0"]);
      EmitFresh(s1, Push, ["0"]);
      EmitFresh(s2, IntegerStore, [d.name]);
      Chain(s1, s2, Emit(s2, IntegerStore, [d.name]));
  }

  lemma CompareFresh(st: GenState, c: Condition)
    ensures Fresh(st, GenCompare(st, c)) && SameContext(st, GenCompare(st, c))
  {
    var s1 := GenSimple(st, c.rhs);
    SimpleFresh(st, c.rhs);
    var s2 := GenSimple(s1, c.lhs);
    SimpleFresh(s1, c.lhs);
    Chain(st, s1, s2);
    EmitFresh(s2, Cmp, []);
    Chain(st, s2, Emit(s2, Cmp, []));
  }

  lemma AssignFresh(st: GenState, lhs: Factor, rhs: Option<Expression>)
    ensures Fresh(st, GenAssign(st, lhs, rhs)) && SameLoop(st, GenAssign(st, lhs, rhs))
  {
    match rhs
    case Some(e) =>
      var s1 := GenExpression(st, e);
      ExpressionFresh(st, e);
      FactorFresh(s1.(isAssignment := true), lhs);
      Chain(st, s1, GenFactor(s1.(isAssignment := true), lhs));
    case None => FactorFresh(st, lhs);
  }

  lemma {:induction false} StatementFresh(st: GenState, s: Statement)
    ensures Fresh(st, GenStatement(st, s)) && SameLoop(st, GenStatement(st, s))
    decreases s, 2
  {
    match s
    case Declare(d) => DeclarationFresh(st, d);
    case If(_, _, _) => IfFresh(st, s);
    case For(_, _, _, _) => ForFresh(st, s);
    case While(_, _) => WhileFresh(st, s);
    case Break => EmitFresh(st, Jump, [st.whileAfterLabel]);
    case Continue => EmitFresh(st, Jump, [st.whileConditionLabel]);
    case Return(value) =>
      var s1 := if value.Some? then GenExpression(st, value.value) else Emit(st, Push, ["0"]);
      if value.Some? {
        ExpressionFresh(st, value.value);
      } else {
        EmitFresh(st, Push, ["0"]);
      }
      EmitFresh(s1, Operation.Return, []);
      Chain(st, s1, Emit(s1, Operation.Return, []));
    case Assign(lhs, rhs) => AssignFresh(st, lhs, rhs);
    case Print(e) =>
      var s1 := GenExpression(st, e);
      ExpressionFresh(st, e);
      EmitFresh(s1, Operation.Print, []);
      Chain(st, s1, Emit(s1, Operation.Print, []));
  }

  lemma {:induction false} IfFresh(st: GenState, s: Statement)
    requires s.If?
    ensures Fresh(st, GenIf(st, s)) && SameLoop(st, GenIf(st, s))
    decreases s, 1
  {
    var s1 := GenCompare(st, s.condition);
    CompareFresh(st, s.condition);
    IfBranchesFresh(s1, s);
    Chain(st, s1, GenIf(st, s));
  }

  lemma {:induction false} IfBranchesFresh(st: GenState, s: Statement)
    requires s.If?
    ensures Fresh(st, GenIfBranches(st, s)) && SameLoop(st, GenIfBranches(st, s))
    decreases s, 0
  {
    var k := st.labelCtr;
    var (s2, falseLabel) := NewLabel(st);
    var s3 := Emit(s2, NegatedJump(s.condition.rel), [falseLabel]);
    EmitFresh(s2, NegatedJump(s.condition.rel), [falseLabel]);
    var s4 := GenBlock(s3, s.body, 0);
    BlockFresh(s3, s.body, 0);
    Chain(s2, s3, s4);
    var jump := Instruction(Jump, [falseLabel]);
    if s.elseBody.statements == [] {
      FreshPlain(st.code, s4.code, k + 1, s4.labelCtr, jump);
      CloseLabel(st.code, s4.code + [jump], k, s4.labelCtr);
    } else {
      var (s6, afterLabel) := NewLabel(s4);
      var jumpAfter := Instruction(Jump, [afterLabel]);
      FreshPlain(st.code, s4.code, k + 1, s4.labelCtr, jumpAfter);
      CloseLabel(st.code, s4.code + [jumpAfter], k, s4.labelCtr);
      var s7 := Emit(Emit(s6, Jump, [afterLabel]), Label, [falseLabel]);
      var s8 := GenBlock(s7, s.elseBody, 0);
      BlockFresh(s7, s.elseBody, 0);
      CloseLabel(s7.code, s8.code, s4.labelCtr, s8.labelCtr);
      FreshTrans(st.code, s7.code, s8.code + [LabelOf(s4.labelCtr)], k, s4.labelCtr, s8.labelCtr);
    }
  }

  lemma {:induction false} ForFresh(st: GenState, s: Statement)
    requires s.For?
    ensures Fresh(st, GenFor(st, s)) && SameLoop(st, GenFor(st, s))
    decreases s, 1
  {
    var k := st.labelCtr;
    var (s1, condLabel) := NewLabel(st);
    var (s2, afterLabel) := NewLabel(s1);
    var s3 := GenStatement(s2, s.initialization);
    StatementFresh(s2, s.initialization);
    var s4 := Emit(s3, Label, [condLabel]);
    var s9 := GenLoop(s4, s, condLabel, afterLabel);
    LoopFresh(s4, s, condLabel, afterLabel);
    ForLabels(st.code, s3.code, s9.code, k, s3.labelCtr, s9.labelCtr);
  }

  lemma {:induction false} WhileFresh(st: GenState, s: Statement)
    requires s.While?
    ensures Fresh(st, GenWhile(st, s)) && SameLoop(st, GenWhile(st, s))
    decreases s, 1
  {
    var k := st.labelCtr;
    var (s1, afterLabel) := NewLabel(st);
    var (s2, condLabel) := WhileCondition(s1);
    WhileConditionFresh(s1);
    var s3 := GenLoop(s2, s, condLabel, afterLabel);
    LoopFresh(s2, s, condLabel, afterLabel);
    FreshTrans(st.code, s2.code, s3.code, k + 1, s2.labelCtr, s3.labelCtr);
    CloseLabel(st.code, s3.code, k, s3.labelCtr);
  }

  /** Choosing the condition label is a fresh step that changes nothing
      but the code and the counter; a label is minted only when the code
      does not end with a LABEL, and then its LABEL is appended. */
  lemma WhileConditionFresh(st: GenState)
    ensures var (r, l) := WhileCondition(st);
      && Fresh(st, r)
      && r == st.(code := r.code, labelCtr := r.labelCtr)
      && (LastLabel(st.code).Some? ==> r == st && l == LastLabel(st.code).value)
      && (LastLabel(st.code).None? ==>
            l == NatToString(st.labelCtr) && r.code == st.code + [LabelOf(st.labelCtr)])
  {
    var k := st.labelCtr;
    assert st.code[..|st.code|] == st.code;
    if LastLabel(st.code).None? {
      FreshLabel(st.code, st.code, k, k, k, k, k + 1);
    }
  }

  lemma {:induction false} LoopFresh(st: GenState, s: Statement, condLabel: string, afterLabel: string)
    requires s.For? || s.While?
    ensures var r := GenLoop(st, s, condLabel, afterLabel);
      && Fresh(st, r)
      && r.whileConditionLabel == condLabel && r.whileAfterLabel == afterLabel
      && (!st.isAssignment ==> !r.isAssignment)
      && r.code != [] && r.code[|r.code| - 1] == Instruction(Jump, [condLabel])
    decreases s, 0
  {
    var s1 := GenCompare(st, s.condition);
    CompareFresh(st, s.condition);
    var s2 := Emit(s1, NegatedJump(s.condition.rel), [afterLabel]);
    EmitFresh(s1, NegatedJump(s.condition.rel), [afterLabel]);
    Chain(st, s1, s2);
    var s2' := s2.(whileConditionLabel := condLabel, whileAfterLabel := afterLabel);
    var s3 := GenBlock(s2', s.body, 0);
    BlockFresh(s2', s.body, 0);
    Chain(st, s2', s3);
    var s4 := if s.For? then GenStatement(s3, s.update) else s3;
    if s.For? {
      StatementFresh(s3, s.update);
      Chain(st, s3, s4);
    }
    EmitFresh(s4, Jump, [condLabel]);
    Chain(st, s4, Emit(s4, Jump, [condLabel]));
  }

  lemma {:induction false} BlockFresh(st: GenState, b: Block, i: nat)
    requires i <= |b.statements|
    ensures Fresh(st, GenBlock(st, b, i)) && SameLoop(st, GenBlock(st, b, i))
    decreases b, |b.statements| - i
  {
    if i == |b.statements| {
      assert st.code[..|st.code|] == st.code;
    } else {
      var s1 := GenStatement(st, b.statements[i]);
      StatementFresh(st, b.statements[i]);
      BlockFresh(s1, b, i + 1);
      Chain(st, s1, GenBlock(s1, b, i + 1));
    }
  }

  // ---------------------------------------------------------------------
  // Functions and the compilation unit

  /** The type map a function starts with: each argument's kind, a later
      argument of the same name winning. */
  function ArgumentTypes(args: seq<Argument>): map<string, TypeKind> {
    if args == [] then map[]
    else ArgumentTypes(args[..|args| - 1])[args[|args| - 1].name := args[|args| - 1].typ.Kind()]
  }

  /** The operands after the name in FUN_BEGIN: per argument its kind word,
      then its name. */
  function ArgumentNames(args: seq<Argument>): seq<string> {
    if args == [] then []
    else [if args[0].typ.Kind() == Integer then "integer" else "array", args[0].name] + ArgumentNames(args[1..])
  }

  /** The parameters the machine should read back from FUN_BEGIN. */
  function ArgumentParams(args: seq<Argument>): seq<Param> {
    seq(|args|, i requires 0 <= i < |args| =>
      Param(args[i].name, if args[i].typ.Kind() == Integer then IntegerValue else ArrayValue))
  }

  /** FUN_BEGIN, after a reset of the type map and the label counter, then
      the body. */
  function GenFunctionBody(st: GenState, d: Declaration): GenState
    requires d.Function?
  {
    var s0 := st.(typeMap := ArgumentTypes(d.arguments), labelCtr := 0);
    GenBlock(Emit(s0, FunBegin, [d.name] + ArgumentNames(d.arguments)), d.body, 0)
  }

  /** `visit(FunctionDeclarationAST)`: a body whose last instruction is not
      RETURN gets `PUSH "0"; RETURN`; FUN_END closes the function. */
  function GenFunction(st: GenState, d: Declaration): GenState
    requires d.Function?
  {
    var s2 := GenFunctionBody(st, d);
    FunctionBodyFresh(st, d);
    var s3 := if s2.code[|s2.code| - 1].op != Operation.Return then Emit(Emit(s2, Push, ["0"]), Operation.Return, []) else s2;
    Emit(s3, FunEnd, [])
  }

  /** `visit(CompilationUnitAST)` from the `i`-th declaration on; a global
      variable is lowered like a local one. */
  function GenDeclarations(st: GenState, cu: CompilationUnit, i: nat): GenState
    requires i <= |cu.declarations|
    decreases |cu.declarations| - i
  {
    if i == |cu.declarations| then st
    else
      var d := cu.declarations[i];
      var s1 := if d.Global? then GenDeclaration(st, d.decl) else GenFunction(st, d);
      GenDeclarations(s1, cu, i + 1)
  }

  /** `generate`: the instructions of the whole unit. */
  function Generate(cu: CompilationUnit): seq<Instruction> {
    GenDeclarations(InitialState, cu, 0).code
  }

  /** Lowering the declarations from the `i`-th on only appends, and every
      function declaration among them gets a FUN_BEGIN carrying its name and
      its parameter operands. */
  lemma {:induction false} DeclarationsLower(st: GenState, cu: CompilationUnit, i: nat)
    requires i <= |cu.declarations|
    ensures var r := GenDeclarations(st, cu, i);
      && Extends(st.code, r.code)
      && forall j :: i <= j < |cu.declarations| && cu.declarations[j].Function? ==>
           exists k :: |st.code| <= k < |r.code| && r.code[k] == FunBeginOf(cu.declarations[j])
    decreases |cu.declarations| - i
  {
    if i < |cu.declarations| {
      var d := cu.declarations[i];
      var s1 := if d.Global? then GenDeclaration(st, d.decl) else GenFunction(st, d);
      if d.Global? {
        DeclarationFresh(st, d.decl);
      } else {
        FunctionShape(st, d);
      }
      DeclarationsLower(s1, cu, i + 1);
      assert GenDeclarations(st, cu, i) == GenDeclarations(s1, cu, i + 1);
      CombineFunBegins(st.code, s1.code, GenDeclarations(s1, cu, i + 1).code, cu.declarations, i);
    }
  }

  /** One declaration's code followed by the rest's: the FUN_BEGINs of
      both are in the whole. */
  lemma CombineFunBegins(c0: seq<Instruction>, c1: seq<Instruction>, c2: seq<Instruction>, decls: seq<Declaration>, i: nat)
    requires i < |decls| && Extends(c0, c1) && Extends(c1, c2)
    requires decls[i].Function? ==> |c1| > |c0| && c1[|c0|] == FunBeginOf(decls[i])
    requires forall j :: i + 1 <= j < |decls| && decls[j].Function? ==>
      exists k :: |c1| <= k < |c2| && c2[k] == FunBeginOf(decls[j])
    ensures Extends(c0, c2)
    ensures forall j :: i <= j < |decls| && decls[j].Function? ==>
      exists k :: |c0| <= k < |c2| && c2[k] == FunBeginOf(decls[j])
  {
    assert c2[..|c0|] == c2[..|c1|][..|c0|];
    if decls[i].Function? {
      assert c2[|c0|] == c2[..|c1|][|c0|];
    }
  }

  /** The FUN_BEGIN a function declaration lowers to. */
  function FunBeginOf(d: Declaration): Instruction
    requires d.Function?
  {
    Instruction(FunBegin, [d.name] + ArgumentNames(d.arguments))
  }

  /** The generated program has a FUN_BEGIN, with its name and parameter
      operands, for every function the unit declares. */
  lemma GenerateDeclaresFunctions(cu: CompilationUnit)
    ensures forall j :: 0 <= j < |cu.declarations| && cu.declarations[j].Function? ==>
      exists k :: 0 <= k < |Generate(cu)| && Generate(cu)[k] == FunBeginOf(cu.declarations[j])
  {
    DeclarationsLower(InitialState, cu, 0);
    assert Generate(cu) == GenDeclarations(InitialState, cu, 0).code && |InitialState.code| == 0;
  }

  lemma FunctionBodyFresh(st: GenState, d: Declaration)
    requires d.Function?
    ensures var s0 := st.(typeMap := ArgumentTypes(d.arguments), labelCtr := 0);
      var r := GenFunctionBody(st, d);
      && FreshLabels(st.code, r.code, 0, r.labelCtr)
      && |r.code| > |st.code|
      && r.code[|st.code|] == Instruction(FunBegin, [d.name] + ArgumentNames(d.arguments))
  {
    var s0 := st.(typeMap := ArgumentTypes(d.arguments), labelCtr := 0);
    var s1 := Emit(s0, FunBegin, [d.name] + ArgumentNames(d.arguments));
    EmitFresh(s0, FunBegin, [d.name] + ArgumentNames(d.arguments));
    BlockFresh(s1, d.body, 0);
    Chain(s0, s1, GenBlock(s1, d.body, 0));
    assert GenFunctionBody(st, d).code[|st.code|] == s1.code[|st.code|];
  }

  /** The FUN_BEGIN operands after the name are what the loader decodes into
      the function's parameters. */
  lemma {:induction false} ArgumentNamesEncode(args: seq<Argument>)
    ensures ArgumentNames(args) == EncodeParams(ArgumentParams(args))
  {
    if args != [] {
      ArgumentNamesEncode(args[1..]);
      assert ArgumentParams(args)[1..] == ArgumentParams(args[1..]);
    }
  }

  lemma FunBeginDecodes(args: seq<Argument>)
    ensures DecodeParams(ArgumentNames(args)) == Some(ArgumentParams(args))
  {
    ArgumentNamesEncode(args);
    DecodeEncodeParams(ArgumentParams(args));
  }

  /** A lowered function starts with its FUN_BEGIN, ends with RETURN and
      FUN_END, and, its counter having been reset, no two of its LABELs name
      the same label. */
  lemma FunctionShape(st: GenState, d: Declaration)
    requires d.Function?
    ensures var r := GenFunction(st, d);
      && Extends(st.code, r.code)
      && |r.code| >= |st.code| + 3
      && r.code[|st.code|] == Instruction(FunBegin, [d.name] + ArgumentNames(d.arguments))
      && r.code[|r.code| - 2].op == Operation.Return
      && r.code[|r.code| - 1] == Instruction(FunEnd, [])
      && (forall i, j :: |st.code| <= i < j < |r.code| && r.code[i].op == Label && r.code[j].op == Label ==>
            r.code[i].operands != r.code[j].operands)
  {
    var s2 := GenFunctionBody(st, d);
    FunctionBodyFresh(st, d);
    ImplicitReturn(st, d);
    var r := GenFunction(st, d);
    var c := s2.code;
    var push, ret, end := Instruction(Push, ["0"]), Instruction(Operation.Return, []), Instruction(FunEnd, []);
    if c[|c| - 1].op != Operation.Return {
      FreshPlain(st.code, c, 0, s2.labelCtr, push);
      FreshPlain(st.code, c + [push], 0, s2.labelCtr, ret);
      FreshPlain(st.code, c + [push] + [ret], 0, s2.labelCtr, end);
      assert r.code == c + [push] + [ret] + [end];
    } else {
      FreshPlain(st.code, c, 0, s2.labelCtr, end);
    }
    assert r.code[|st.code|] == r.code[..|c|][|st.code|];
    FreshOperands(st.code, r.code, 0, s2.labelCtr);
  }

  /** The LABELs of a fresh stretch carry pairwise distinct operands. */
  lemma FreshOperands(c0: seq<Instruction>, c1: seq<Instruction>, lo: nat, hi: nat)
    requires FreshLabels(c0, c1, lo, hi)
    ensures forall i, j :: |c0| <= i < j < |c1| && c1[i].op == Label && c1[j].op == Label ==>
      c1[i].operands != c1[j].operands
  {
    forall i, j | |c0| <= i < j < |c1| && c1[i].op == Label && c1[j].op == Label
      ensures c1[i].operands != c1[j].operands
    {
      assert LabelValue(c1[i]) != LabelValue(c1[j]);
    }
  }

  /** The implicit `return 0`: it is added exactly when the body's code does
      not already end in RETURN. */
  lemma ImplicitReturn(st: GenState, d: Declaration)
    requires d.Function?
    ensures var body := GenFunctionBody(st, d).code;
      var r := GenFunction(st, d).code;
      && |body| > 0
      && (body[|body| - 1].op == Operation.Return ==> r == body + [Instruction(FunEnd, [])])
      && (body[|body| - 1].op != Operation.Return ==>
            r == body + [Instruction(Push, ["0"]), Instruction(Operation.Return, []), Instruction(FunEnd, [])])
  {
    FunctionBodyFresh(st, d);
  }

  // ---------------------------------------------------------------------
  // What the lowering chooses

  /** An identifier's instruction: a store exactly when lowering an
      assignment target, an array instruction exactly when the type map
      records an array. */
  lemma IdentifierChoice(st: GenState, name: string)
    ensures var code := GenFactor(st, Identifier(name)).code;
      var op := IdentifierOp(st, name);
      && code == st.code + [Instruction(op, [name])]
      && (op == IntegerStore || op == ArrayStore) == st.isAssignment
      && (op == ArrayLoad || op == ArrayStore) == (name in st.typeMap && st.typeMap[name] != Integer)
  {
  }

  /** A declaration without initialiser stores 0 with INTEGER_STORE even for
      an array, while the type map records the array: a later read of the
      name is an ARRAY_LOAD. */
  lemma UninitialisedDeclaration(st: GenState, typ: TypeSpec, name: string)
    ensures var r := GenDeclaration(st, VariableDeclaration(typ, name, None));
      && r.code == st.code + [Instruction(Push, ["0"]), Instruction(IntegerStore, [name])]
      && (typ.ArrayType? ==> IdentifierOp(r, name) == if st.isAssignment then ArrayStore else ArrayLoad)
  {
  }

  /** Lowers `args[n - 1]` down to `args[1]`, the arguments before the
      first one. */
  function GenArgsAbove(st: GenState, f: Factor, n: nat): GenState
    requires f.FunctionCall? && 1 <= n <= |f.args|
    decreases n
  {
    if n == 1 then st else GenArgsAbove(GenExpression(st, f.args[n - 1]), f, n - 1)
  }

  /** The first argument is lowered last, right before FUN_CALL, so that it
      is on top when the callee binds its first parameter. */
  lemma {:induction false} FirstArgumentLast(st: GenState, f: Factor, n: nat)
    requires f.FunctionCall? && 1 <= n <= |f.args|
    ensures GenArgs(st, f, n) == GenExpression(GenArgsAbove(st, f, n), f.args[0])
    decreases n
  {
    if n > 1 {
      FirstArgumentLast(GenExpression(st, f.args[n - 1]), f, n - 1);
    }
  }

  /** A call ends with FUN_CALL of the callee's name right after the code of
      its first argument. */
  lemma CallLowering(st: GenState, name: string, args: seq<Expression>)
    requires args != []
    ensures var f := FunctionCall(name, args);
      GenFactor(st, f) == Emit(GenExpression(GenArgsAbove(st, f, |args|), args[0]), FunCall, [name])
  {
    FirstArgumentLast(st, FunctionCall(name, args), |args|);
  }

  /** A `while` whose condition would follow a LABEL reuses that label; the
      loop always ends by jumping back to its condition label and placing
      its after label. */
  lemma WhileLabels(st: GenState, s: Statement)
    requires s.While?
    ensures var r := GenWhile(st, s);
      var k := st.labelCtr;
      var cond := if LastLabel(st.code).Some? then LastLabel(st.code).value else NatToString(k + 1);
      && |r.code| >= |st.code| + 2
      && r.code[|r.code| - 2] == Instruction(Jump, [cond])
      && r.code[|r.code| - 1] == LabelOf(k)
      && (LastLabel(st.code).None? ==> r.code[|st.code|] == LabelOf(k + 1))
  {
    WhileTail(st, s);
    if LastLabel(st.code).None? {
      WhileHead(st, s);
    }
  }

  /** The last two instructions of a `while`: the jump back to the condition
      label and the after label. */
  lemma WhileTail(st: GenState, s: Statement)
    requires s.While?
    ensures var r := GenWhile(st, s);
      var cond := if LastLabel(st.code).Some? then LastLabel(st.code).value else NatToString(st.labelCtr + 1);
      && |r.code| >= |st.code| + 2
      && r.code[|r.code| - 2] == Instruction(Jump, [cond])
      && r.code[|r.code| - 1] == LabelOf(st.labelCtr)
  {
    var k := st.labelCtr;
    var s1 := st.(labelCtr := k + 1);
    var w := WhileCondition(s1);
    WhileConditionFresh(s1);
    var c := GenLoop(w.0, s, w.1, NatToString(k)).code;
    LoopFresh(w.0, s, w.1, NatToString(k));
    WhileCode(st, s);
    AppendAfterJump(c, w.1, LabelOf(k), |st.code|);
  }

  /** Appending to code that ends in a jump leaves that jump second to
      last. */
  lemma AppendAfterJump(c: seq<Instruction>, target: string, x: Instruction, n: nat)
    requires |c| > n && c[|c| - 1] == Instruction(Jump, [target])
    ensures |c + [x]| >= n + 2 && (c + [x])[|c + [x]| - 2] == Instruction(Jump, [target]) && (c + [x])[|c + [x]| - 1] == x
  {
  }

  /** A `while` not preceded by a LABEL starts with its own condition
      label. */
  lemma WhileHead(st: GenState, s: Statement)
    requires s.While? && LastLabel(st.code).None?
    ensures |GenWhile(st, s).code| > |st.code|
    ensures GenWhile(st, s).code[|st.code|] == LabelOf(st.labelCtr + 1)
  {
    var k := st.labelCtr;
    var s1 := st.(labelCtr := k + 1);
    var w := WhileCondition(s1);
    WhileConditionFresh(s1);
    var c := GenLoop(w.0, s, w.1, NatToString(k)).code;
    LoopFresh(w.0, s, w.1, NatToString(k));
    WhileCode(st, s);
    ExtensionKeeps(st.code, LabelOf(k + 1), c, LabelOf(k));
  }

  /** Code that extends `c0 + [x]`, with one more instruction appended,
      still holds `x` just after `c0`. */
  lemma ExtensionKeeps(c0: seq<Instruction>, x: Instruction, c: seq<Instruction>, y: Instruction)
    requires Extends(c0 + [x], c)
    ensures |c + [y]| > |c0| && (c + [y])[|c0|] == x
  {
    assert c[|c0|] == c[..|c0| + 1][|c0|];
  }

  /** The code of a `while`: the loop from the condition label on, then
      the after label. */
  lemma WhileCode(st: GenState, s: Statement)
    requires s.While?
    ensures var k := st.labelCtr;
      var w := WhileCondition(st.(labelCtr := k + 1));
      GenWhile(st, s).code == GenLoop(w.0, s, w.1, NatToString(k)).code + [LabelOf(k)]
  {
  }

  // ---------------------------------------------------------------------
  // Running the lowered code

  /** The machine after `CMP` at line `p` with the left operand on top. */
  lemma CmpStep(ops: seq<Instruction>, m: Machine, rest: seq<int>, lhs: int, rhs: int)
    requires Running(ops, m) && ops[m.currentLine] == Instruction(Cmp, [])
    requires m.callStack != [] && Top(m).operandStack == rest + [rhs, lhs]
    ensures Step(ops, m) == Ok(SetTop(m, Top(m).(operandStack := rest)).(compareResult := CmpFlags(lhs, rhs), currentLine := m.currentLine + 1))
  {
    var st := Top(m).operandStack;
    assert Last(st) == lhs && Last(Pop(st)) == rhs && Pop(Pop(st)) == rest;
  }

  /** PUSH of the decimal text of a value. */
  lemma PushStep(ops: seq<Instruction>, m: Machine, n: nat)
    requires Running(ops, m) && ops[m.currentLine] == Instruction(Push, [NatToString(n)])
    requires m.callStack != [] && n <= Int64Max
    ensures Step(ops, m) == Ok(SetTop(m, Top(m).(operandStack := Top(m).operandStack + [n])).(currentLine := m.currentLine + 1))
  {
    var x := SetTop(m, Top(m).(operandStack := Top(m).operandStack + [n]));
    ExecPushValue(m, n);
    assert Exec(m, ops[m.currentLine]) == Ok(x);
    StepOfExec(ops, m, x);
  }


  lemma ExecPushValue(m: Machine, n: nat)
    requires m.callStack != [] && n <= Int64Max
    ensures ExecPush(m, [NatToString(n)]) == Ok(SetTop(m, Top(m).(operandStack := Top(m).operandStack + [n])))
  {
    StoLLOfNatToString(n);
  }

  /** One turn of the execution loop that does not fault. */
  lemma RunStep(ops: seq<Instruction>, m: Machine, m': Machine, fuel: nat)
    requires Running(ops, m) && fuel > 0 && Step(ops, m) == Ok(m')
    ensures Run(ops, m, fuel) == Run(ops, m', fuel - 1)
  {
  }

  /** A conditional jump whose flag is clear goes on with the next line. */
  lemma FallThrough(ops: seq<Instruction>, m: Machine)
    requires Running(ops, m) && m.callStack != []
    requires IsConditionalJump(ops[m.currentLine].op) && ops[m.currentLine].operands != []
    requires !FlagOf(ops[m.currentLine].op, m.compareResult)
    ensures Step(ops, m) == Ok(m.(currentLine := m.currentLine + 1))
  {
  }

  /** LABEL only moves the counter on. */
  lemma LabelStep(ops: seq<Instruction>, m: Machine)
    requires Running(ops, m) && ops[m.currentLine].op == Label
    ensures Step(ops, m) == Ok(m.(currentLine := m.currentLine + 1))
  {
  }

  lemma SetTopTwice(m: Machine, f: Frame, g: Frame)
    requires m.callStack != []
    ensures SetTop(SetTop(m, f), g) == SetTop(m, g)
  {
    var n := |m.callStack|;
    assert (m.callStack[..n - 1] + [f])[..n - 1] == m.callStack[..n - 1];
  }

  /** The tail when the relation holds: no jump, PUSH "1", JUMP over the
      false branch to the after label. */
  lemma TailWhenHolds(ops: seq<Instruction>, m: Machine, rel: Relation, k: nat)
    requires var p := m.currentLine;
      1 <= p && p + 6 <= |ops| && ops[p - 1..p + 6] == [Instruction(Cmp, [])] + RelationTail(rel, k)
    requires m.callStack != [] && !FlagOf(NegatedJump(rel), m.compareResult)
    requires var labels := Top(m).functionContext.labels;
      NatToString(k) in labels && NatToString(k + 1) in labels && labels[NatToString(k + 1)] == m.currentLine + 5
    ensures Run(ops, m, 3) == Ok(SetTop(m, Top(m).(operandStack := Top(m).operandStack + [1])).(currentLine := m.currentLine + 6))
  {
    var p := m.currentLine;
    assert ops[p] == ops[p - 1..p + 6][1];
    assert ops[p + 1] == ops[p - 1..p + 6][2];
    assert ops[p + 2] == ops[p - 1..p + 6][3];
    var pushed := SetTop(m, Top(m).(operandStack := Top(m).operandStack + [1]));
    var m2 := m.(currentLine := p + 1);
    var m3 := pushed.(currentLine := p + 2);
    FallThrough(ops, m);
    RunStep(ops, m, m2, 3);
    PushStep(ops, m2, 1);
    RunStep(ops, m2, m3, 2);
    assert Top(m3).functionContext == Top(m).functionContext;
    JumpLands(ops, m3);
    RunStep(ops, m3, pushed.(currentLine := p + 6), 1);
  }

  /** The tail when the relation fails: the jump to the false label, then
      PUSH "0" and the after label. */
  lemma TailWhenFails(ops: seq<Instruction>, m: Machine, rel: Relation, k: nat)
    requires var p := m.currentLine;
      1 <= p && p + 6 <= |ops| && ops[p - 1..p + 6] == [Instruction(Cmp, [])] + RelationTail(rel, k)
    requires m.callStack != [] && FlagOf(NegatedJump(rel), m.compareResult)
    requires var labels := Top(m).functionContext.labels;
      NatToString(k) in labels && labels[NatToString(k)] == m.currentLine + 3
    ensures Run(ops, m, 3) == Ok(SetTop(m, Top(m).(operandStack := Top(m).operandStack + [0])).(currentLine := m.currentLine + 6))
  {
    var p := m.currentLine;
    assert ops[p] == ops[p - 1..p + 6][1];
    assert ops[p + 4] == ops[p - 1..p + 6][5];
    assert ops[p + 5] == ops[p - 1..p + 6][6];
    var pushed := SetTop(m, Top(m).(operandStack := Top(m).operandStack + [0]));
    var m2 := m.(currentLine := p + 4);
    var m3 := pushed.(currentLine := p + 5);
    JumpLands(ops, m);
    RunStep(ops, m, m2, 3);
    PushStep(ops, m2, 0);
    RunStep(ops, m2, m3, 2);
    LabelStep(ops, m3);
    RunStep(ops, m3, pushed.(currentLine := p + 6), 1);
  }

  /** A comparison lowered at line `p`, started with the right operand under
      the left: four turns of the execution loop later the machine is at the
      line after the tail with 1 on the stack when the relation holds and 0
      when it does not, the labels being where the loader records them. */
  lemma RelationalValue(ops: seq<Instruction>, m: Machine, rel: Relation, k: nat, rest: seq<int>, lhs: int, rhs: int)
    requires var p := m.currentLine;
      0 <= p && p + 7 <= |ops| && ops[p..p + 7] == [Instruction(Cmp, [])] + RelationTail(rel, k)
    requires m.callStack != [] && Top(m).operandStack == rest + [rhs, lhs]
    requires var labels := Top(m).functionContext.labels;
      && NatToString(k) in labels && labels[NatToString(k)] == m.currentLine + 4
      && NatToString(k + 1) in labels && labels[NatToString(k + 1)] == m.currentLine + 6
    ensures var v := if Holds(rel, lhs, rhs) then 1 else 0;
      Run(ops, m, 4) == Ok(SetTop(m, Top(m).(operandStack := rest + [v])).(compareResult := CmpFlags(lhs, rhs), currentLine := m.currentLine + 7))
  {
    var p := m.currentLine;
    assert ops[p] == ops[p..p + 7][0];
    var m1 := SetTop(m, Top(m).(operandStack := rest)).(compareResult := CmpFlags(lhs, rhs), currentLine := p + 1);
    CmpStep(ops, m, rest, lhs, rhs);
    assert ops[p..p + 7] == ops[m1.currentLine - 1..m1.currentLine + 6];
    NegatedJumpCorrect(rel, lhs, rhs);
    var v := if Holds(rel, lhs, rhs) then 1 else 0;
    if Holds(rel, lhs, rhs) {
      TailWhenHolds(ops, m1, rel, k);
    } else {
      TailWhenFails(ops, m1, rel, k);
    }
    SetTopTwice(m, Top(m).(operandStack := rest), Top(m).(operandStack := rest + [v]));
  }

  /** SUB at the counter with `first` on top of `second` leaves
      `second - first`. */
  lemma SubStep(ops: seq<Instruction>, m: Machine, rest: seq<int>, second: nat, first: nat)
    requires Running(ops, m) && ops[m.currentLine] == Instruction(Sub, [])
    requires m.callStack != [] && Top(m).operandStack == rest + [second, first]
    requires second <= Int64Max && first <= Int64Max
    ensures Step(ops, m) == Ok(SetTop(m, Top(m).(operandStack := rest + [second - first])).(currentLine := m.currentLine + 1))
  {
    var st := Top(m).operandStack;
    assert Last(st) == first && Last(Pop(st)) == second && Pop(Pop(st)) == rest;
  }

  /** The machine with `v` pushed onto the top frame's stack, at `line`. */
  function Pushed(m: Machine, v: int, line: int): Machine
    requires m.callStack != []
  {
    SetTop(m, Top(m).(operandStack := Top(m).operandStack + [v])).(currentLine := line)
  }

  /** `PUSH a; PUSH b; SUB` run from line `p` leaves `a - b`. */
  lemma PushPushSub(ops: seq<Instruction>, m: Machine, a: nat, b: nat, v: int)
    requires var p := m.currentLine;
      0 <= p && p + 3 <= |ops|
      && ops[p..p + 3] == [Instruction(Push, [NatToString(a)]), Instruction(Push, [NatToString(b)]), Instruction(Sub, [])]
    requires m.callStack != [] && a <= Int64Max && b <= Int64Max && v == a - b
    ensures Run(ops, m, 3) == Ok(Pushed(m, v, m.currentLine + 3))
  {
    var p := m.currentLine;
    var rest := Top(m).operandStack;
    assert ops[p] == ops[p..p + 3][0] && ops[p + 1] == ops[p..p + 3][1] && ops[p + 2] == ops[p..p + 3][2];
    var fa := Top(m).(operandStack := rest + [a]);
    var fab := Top(m).(operandStack := rest + [a, b]);
    var fv := Top(m).(operandStack := rest + [v]);
    var m1 := SetTop(m, fa).(currentLine := p + 1);
    var m2 := SetTop(m, fab).(currentLine := p + 2);
    var m3 := SetTop(m, fv).(currentLine := p + 3);
    PushStep(ops, m, a);
    RunStep(ops, m, m1, 3);
    PushStep(ops, m1, b);
    assert Top(m1) == fa;
    assert fa.(operandStack := rest + [a] + [b]) == fab;
    SetTopAt(m, fa, fab, p + 1);
    RunStep(ops, m1, m2, 2);
    SubStep(ops, m2, rest, a, b);
    SetTopAt(m, fab, fv, p + 2);
    RunStep(ops, m2, m3, 1);
  }

  /** Replacing the top frame of a machine whose top frame was replaced and
      whose counter was moved. */
  lemma SetTopAt(m: Machine, f: Frame, g: Frame, line: int)
    requires m.callStack != []
    ensures SetTop(SetTop(m, f).(currentLine := line), g).(currentLine := line + 1) == SetTop(m, g).(currentLine := line + 1)
  {
    SetTopTwice(m, f, g);
  }

  /** The unary minus of a literal as the source lowers it: the literal's
      own value ends on the stack, not its negation. For `-5` the machine
      pushes 5. */
  lemma UnaryMinusAsWritten(st: GenState, n: nat, m: Machine)
    requires n <= Int64Max && m.currentLine == |st.code| && m.callStack != []
    ensures var code := GenMulOperandAsWritten(st, MulOperand(Some(UnaryMinus), IntegerLiteral(NatToString(n)))).code;
      Run(code, m, 3) == Ok(Pushed(m, n, m.currentLine + 3))
  {
    var code := GenMulOperandAsWritten(st, MulOperand(Some(UnaryMinus), IntegerLiteral(NatToString(n)))).code;
    assert code[m.currentLine..m.currentLine + 3] == [Instruction(Push, [NatToString(n)]), Instruction(Push, ["0"]), Instruction(Sub, [])];
    assert NatToString(0) == "0";
    PushPushSub(code, m, n, 0, n);
  }

  /** The corrected lowering of `-n`: PUSH "0", PUSH n, SUB. */
  lemma NegatedLiteralCode(st: GenState, n: nat)
    ensures GenMulOperand(st, MulOperand(Some(UnaryMinus), IntegerLiteral(NatToString(n)))).code
      == st.code + [Instruction(Push, [NatToString(0)]), Instruction(Push, [NatToString(n)]), Instruction(Sub, [])]
  {
    assert NatToString(0) == "0";
    var s1 := Emit(st, Push, ["0"]);
    assert GenFactor(s1, IntegerLiteral(NatToString(n))) == Emit(s1, Push, [NatToString(n)]);
  }

  /** `PUSH "0"; PUSH n; SUB` after `prefix` leaves `-n`. */
  lemma RunNegation(prefix: seq<Instruction>, ops: seq<Instruction>, m: Machine, n: nat, v: int)
    requires ops == prefix + [Instruction(Push, [NatToString(0)]), Instruction(Push, [NatToString(n)]), Instruction(Sub, [])]
    requires m.currentLine == |prefix| && m.callStack != [] && n <= Int64Max && v == -(n as int)
    ensures Run(ops, m, 3) == Ok(Pushed(m, v, m.currentLine + 3))
  {
    assert ops[|prefix|..|prefix| + 3] == ops[|prefix|..];
    PushPushSub(ops, m, 0, n, v);
  }

  /** The value `-n`. */
  function Negation(n: nat): int {
    -(n as int)
  }

  /** The corrected lowering negates: `-n` ends on the stack. */
  lemma UnaryMinusNegates(st: GenState, n: nat, m: Machine)
    requires n <= Int64Max && m.currentLine == |st.code| && m.callStack != []
    ensures var code := GenMulOperand(st, MulOperand(Some(UnaryMinus), IntegerLiteral(NatToString(n)))).code;
      Run(code, m, 3) == Ok(Pushed(m, Negation(n), m.currentLine + 3))
  {
    var code := GenMulOperand(st, MulOperand(Some(UnaryMinus), IntegerLiteral(NatToString(n)))).code;
    NegatedLiteralCode(st, n);
    RunNegation(st.code, code, m, n, Negation(n));
  }
}
