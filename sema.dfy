/** The semantic checker of src/Sema/Sema.cpp: scopes that map names to
    declarations, and the visitor that walks a compilation unit, records each
    declaration and raises an error flag on the first broken declaration or
    typing rule.

    The scope objects, which the checker updates in place, are the class
    `Scope`. The visitor's own fields (the current scope chain, the last
    type, the last array size, the last called function and the error flag)
    are threaded through pure functions as a `SemaState`, the chain written
    innermost first. */
module Sema {
  import opened Basics
  import opened Decimal
  import opened Ast

  /** `Decl`: the declared type (a function's return type), whether the
      declaration had an initializer, and a function's parameter list. */
  datatype Decl = Decl(typ: TypeSpec, initialized: bool, arguments: Option<seq<Argument>>)

  /** The members of one scope. */
  type Members = map<string, Decl>

  /** A chain of scopes, innermost first. */
  type Scopes = seq<Members>

  /** `Scope::insert`: adds the entry unless the name is already a member of
      the scope, and reports whether it did. */
  function ScopeInsert(members: Members, name: string, d: Decl): (r: (Members, bool))
    ensures r.1 <==> name !in members
    ensures name in r.0 && r.0[name] == (if r.1 then d else members[name])
    ensures forall n :: n != name ==> (n in r.0 <==> n in members)
    ensures forall n :: n != name && n in members ==> r.0[n] == members[n]
  {
    if name in members then (members, false) else (members[name := d], true)
  }

  /** `Scope::lookup`: the walk from the innermost scope outwards. */
  function FindDecl(scopes: Scopes, name: string): Option<Decl>
    decreases |scopes|
  {
    if scopes == [] then None
    else if name in scopes[0] then Some(scopes[0][name])
    else FindDecl(scopes[1..], name)
  }

  /** Scope `i` is the innermost one declaring `name`. */
  predicate Innermost(scopes: Scopes, name: string, i: int) {
    0 <= i < |scopes| && name in scopes[i] && forall j :: 0 <= j < i ==> name !in scopes[j]
  }

  /** Lookup fails exactly when no scope of the chain declares the name, and
      otherwise finds the declaration of the innermost scope that does. */
  lemma {:induction false} FindDeclInnermost(scopes: Scopes, name: string)
    ensures FindDecl(scopes, name).None? <==> forall i :: 0 <= i < |scopes| ==> name !in scopes[i]
    ensures forall i :: Innermost(scopes, name, i) ==> FindDecl(scopes, name) == Some(scopes[i][name])
    decreases |scopes|
  {
    if scopes != [] && name !in scopes[0] {
      var rest := scopes[1..];
      FindDeclInnermost(rest, name);
      forall i | Innermost(scopes, name, i)
        ensures FindDecl(scopes, name) == Some(scopes[i][name])
      {
        assert Innermost(rest, name, i - 1);
      }
      forall i | 1 <= i < |scopes|
        ensures scopes[i] == rest[i - 1]
      {
      }
    }
  }

  /** A chain of scope objects, each the parent of the one before it and the
      last one without a parent. */
  ghost predicate Linked(c: seq<Scope>) {
    |c| > 0 && c[|c| - 1].parent == null &&
    forall i :: 0 <= i < |c| - 1 ==> c[i].parent == c[i + 1]
  }

  /** The members of each scope of a chain. */
  ghost function MembersOf(c: seq<Scope>): (m: Scopes)
    reads c
    ensures |m| == |c| && forall i :: 0 <= i < |c| ==> m[i] == c[i].members
  {
    if c == [] then [] else [c[0].members] + MembersOf(c[1..])
  }

  /** `Scope`: a named set of members and the enclosing scope. */
  class Scope {
    const name: string
    const parent: Scope?
    var members: Members
    /** The enclosing scopes, nearest first. */
    ghost const ancestors: seq<Scope>

    ghost function Chain(): seq<Scope> {
      [this] + ancestors
    }

    ghost predicate Valid() {
      Linked(Chain())
    }

    /** The members of this scope and of every enclosing one, innermost first. */
    ghost function Members(): Scopes
      reads Chain()
    {
      MembersOf(Chain())
    }

    constructor(name: string, parent: Scope?)
      requires parent != null ==> parent.Valid()
      ensures Valid() && this.name == name && this.parent == parent && members == map[]
      ensures Chain() == [this] + (if parent == null then [] else parent.Chain())
    {
      this.name := name;
      this.parent := parent;
      this.members := map[];
      this.ancestors := if parent == null then [] else parent.Chain();
    }

    /** `Scope::insert`. */
    method Insert(declName: string, d: Decl) returns (inserted: bool)
      modifies this
      ensures (members, inserted) == ScopeInsert(old(members), declName, d)
    {
      if declName in members {
        inserted := false;
      } else {
        members := members[declName := d];
        inserted := true;
      }
    }

    /** `Scope::lookup`: follows the parent links until a scope declares the
        name. */
    method Lookup(declName: string) returns (r: Option<Decl>)
      requires Valid()
      ensures r == FindDecl(Members(), declName)
    {
      ghost var c := Chain();
      ghost var all := MembersOf(c);
      var current: Scope? := this;
      ghost var i := 0;
      while current != null
        invariant 0 <= i <= |c|
        invariant current == if i < |c| then c[i] else null
        invariant FindDecl(all, declName) == FindDecl(all[i..], declName)
        decreases |c| - i
      {
        assert all[i..][0] == current.members;
        assert all[i..][1..] == all[i + 1..];
        if declName in current.members {
          return Some(current.members[declName]);
        }
        current := current.parent;
        i := i + 1;
      }
      assert all[i..] == [];
      r := None;
    }
  }

  /** The fields of the checker. */
  datatype SemaState = SemaState(
    scopes: Scopes,
    lastType: TypeKind,
    lastArraySize: nat,
    lastFunctionName: string,
    hasError: bool)

  /** No scope yet, `Void` as the last type, no error. */
  const InitialState := SemaState([], Void, 0, "", false)

  function Fail(st: SemaState): SemaState {
    st.(hasError := true)
  }

  /** The check, repeated throughout the visitor, that the last type is
      `Integer`. */
  function ExpectInteger(st: SemaState): SemaState {
    if st.lastType != Integer then Fail(st) else st
  }

  function Push(st: SemaState): SemaState {
    st.(scopes := [map[]] + st.scopes)
  }

  function Pop(st: SemaState): SemaState {
    st.(scopes := if st.scopes == [] then [] else st.scopes[1..])
  }

  /** Inserts into the innermost scope; the checker always has one when it
      declares. */
  function DeclareName(st: SemaState, name: string, d: Decl): SemaState {
    if st.scopes == [] then st
    else st.(scopes := [ScopeInsert(st.scopes[0], name, d).0] + st.scopes[1..])
  }

  /** `StringRef::getAsInteger(10, ...)` into a `size_t`: a non-empty run of
      decimal digits whose value fits in 64 bits. */
  function ParseSize(text: string): Option<nat> {
    if 0 < |text| && AllDigits(text) && DigitsValue(text) < 0x1_0000_0000_0000_0000
    then Some(DigitsValue(text))
    else None
  }

  /** `getAsInteger` leaves its destination unchanged when the text is not a
      number. */
  function SizeOr(text: string, previous: nat): nat {
    match ParseSize(text)
    case Some(n) => n
    case None => previous
  }

  /** The visits of `IntegerTypeAST` and `ArrayTypeAST`. */
  function VisitType(st: SemaState, t: TypeSpec): SemaState {
    match t
    case IntegerType => st.(lastType := Integer)
    case ArrayType(size) => st.(lastType := Array, lastArraySize := SizeOr(size, st.lastArraySize))
  }

  // ----- Expressions -----

  /** The checker's `Expression` visit. A comparison needs integer sides. */
  function VisitExpression(st: SemaState, e: Expression): SemaState
    decreases e, 1
  {
    match e
    case Plain(lhs) => VisitSimple(st, lhs)
    case Relational(lhs, _, rhs) =>
      ExpectInteger(VisitSimple(ExpectInteger(VisitSimple(st, lhs)), rhs))
  }

  /** A sum needs integer terms. */
  function VisitSimple(st: SemaState, e: SimpleExpression): SemaState
    decreases e, 1
  {
    var s1 := VisitTerm(st, e.first);
    var s2 := if |e.rest| > 0 && s1.lastType != Integer then Fail(s1) else s1;
    VisitAddTerms(s2, e, 0)
  }

  function VisitAddTerms(st: SemaState, e: SimpleExpression, i: nat): SemaState
    requires i <= |e.rest|
    decreases e, 0, |e.rest| - i
  {
    if i == |e.rest| then st
    else
      var s := ExpectInteger(VisitTerm(st, e.rest[i].term));
      if s.hasError then s else VisitAddTerms(s, e, i + 1)
  }

  /** A product needs integer operands. */
  function VisitTerm(st: SemaState, t: Term): SemaState
    decreases t, 1
  {
    var s1 := VisitMulOperand(st, t.first);
    var s2 := if |t.rest| > 0 && s1.lastType != Integer then Fail(s1) else s1;
    if s2.hasError then s2 else VisitMulTerms(s2, t, 0)
  }

  function VisitMulTerms(st: SemaState, t: Term, i: nat): SemaState
    requires i <= |t.rest|
    decreases t, 0, |t.rest| - i
  {
    if i == |t.rest| then st
    else
      var s := ExpectInteger(VisitMulOperand(st, t.rest[i].operand));
      if s.hasError then s else VisitMulTerms(s, t, i + 1)
  }

  /** A unary sign needs an integer operand. */
  function VisitMulOperand(st: SemaState, m: MulOperand): SemaState
    decreases m, 1
  {
    if st.hasError then st
    else
      var s := VisitFactor(st, m.factor);
      if m.unary.Some? then ExpectInteger(s) else s
  }

  /** An identifier takes the type of its declaration. An undeclared one is
      an error. */
  function VisitIdentifier(st: SemaState, name: string): SemaState {
    if st.hasError then st
    else match FindDecl(st.scopes, name)
      case None => Fail(st)
      case Some(d) => VisitType(st, d.typ)
  }

  function VisitFactor(st: SemaState, f: Factor): SemaState
    decreases f, 1
  {
    match f
    case Identifier(name) => VisitIdentifier(st, name)
    case IntegerLiteral(text) =>
      st.(lastArraySize := SizeOr(text, st.lastArraySize), lastType := Integer)
    case ArrayInitialization(_) => VisitElements(st, f, 0)
    case GetByIndex(name, index) =>
      var s1 := VisitIdentifier(st, name);
      if s1.hasError then s1
      else if s1.lastType != Array then Fail(s1)
      else ExpectInteger(VisitExpression(s1, index)).(lastType := Integer)
    case ExpressionFactor(e) => VisitExpression(st, e)
    case FunctionCall(name, _) =>
      var found := FindDecl(st.scopes, name);
      var s1 := (if found.None? then Fail(st) else st).(lastFunctionName := name);
      if s1.hasError then s1
      else VisitType(VisitExpressionsList(s1, found.value, f), found.value.typ)
  }

  /** An array literal needs integer elements; its type is an array of as
      many elements as it lists. */
  function VisitElements(st: SemaState, f: Factor, i: nat): SemaState
    requires f.ArrayInitialization? && i <= |f.elements|
    decreases f, 0, |f.elements| - i
  {
    if i == |f.elements| then st.(lastArraySize := |f.elements|, lastType := Array)
    else if st.hasError then st
    else
      var s := ExpectInteger(VisitExpression(st, f.elements[i]));
      if s.hasError then s else VisitElements(s, f, i + 1)
  }

  /** The arguments of a call of `callee`, the declaration the call found
      under `lastFunctionName`. A callee without a parameter list (a
      variable) is an error, and so is a wrong argument count. */
  function VisitExpressionsList(st: SemaState, callee: Decl, f: Factor): SemaState
    requires f.FunctionCall?
    decreases f, 0, |f.args| + 1
  {
    match callee.arguments
    case None => st.(hasError := true)
    case Some(params) =>
      VisitArgs(if |f.args| != |params| then Fail(st) else st, params, f, 0)
  }

  /** Each argument must have its parameter's type, and an array argument
      its parameter's size. With a wrong count the first argument already
      stops the walk, so a parameter past the end is never read. */
  function VisitArgs(st: SemaState, params: seq<Argument>, f: Factor, i: nat): SemaState
    requires f.FunctionCall? && i <= |f.args|
    decreases f, 0, |f.args| - i
  {
    if i == |f.args| || i >= |params| then st
    else
      var s1 := VisitType(st, params[i].typ);
      var s2 := VisitExpression(s1, f.args[i]);
      if s2.hasError then s2
      else if s1.lastType != s2.lastType then Fail(s2)
      else
        var s3 := if s1.lastType == Array && s1.lastArraySize != s2.lastArraySize then Fail(s2) else s2;
        VisitArgs(s3, params, f, i + 1)
  }

  // ----- Declarations and statements -----

  /** A variable declaration. Its name must not be visible in any enclosing
      scope; an initializer must have the declared type and, for an array,
      the declared size. */
  function VisitVariableDeclaration(st: SemaState, d: VariableDeclaration): SemaState {
    if st.hasError then st
    else
      var s1 := VisitType(if FindDecl(st.scopes, d.name).Some? then Fail(st) else st, d.typ);
      if s1.hasError then s1
      else if d.init.None? then DeclareName(s1, d.name, Decl(d.typ, false, None))
      else
        var s2 := VisitExpression(s1, d.init.value);
        if s2.hasError then s2
        else if s1.lastType != s2.lastType then Fail(s2)
        else
          var s3 := if s1.lastType == Array && s1.lastArraySize != s2.lastArraySize then Fail(s2) else s2;
          DeclareName(s3, d.name, Decl(d.typ, true, None))
  }

  /** The parameters of a function, declared one by one in its scope, each
      under a name visible nowhere yet. */
  function VisitArguments(st: SemaState, args: seq<Argument>, i: nat): SemaState
    requires i <= |args|
    decreases |args| - i
  {
    if i == |args| || st.hasError then st
    else if FindDecl(st.scopes, args[i].name).Some? then Fail(st)
    else
      var s := VisitType(st, args[i].typ);
      VisitArguments(DeclareName(s, args[i].name, Decl(args[i].typ, true, None)), args, i + 1)
  }

  /** A function declaration: its name must not be visible, it must have a
      return type, and its parameters and body are checked in a scope of
      their own. The declaration records the parameter list, which the
      source attaches once the list is checked; nothing reads it before. */
  function VisitFunction(st: SemaState, d: Declaration): SemaState
    requires d.Function?
  {
    if st.hasError then st
    else
      var s1 := if FindDecl(st.scopes, d.name).Some? then Fail(st) else st;
      if d.returnType.None? then s1.(hasError := true)
      else
        var s2 := VisitType(s1, d.returnType.value);
        if s2.hasError then s2
        else
          var s3 := DeclareName(s2, d.name, Decl(d.returnType.value, true, Some(d.arguments)));
          Pop(VisitBlock(VisitArguments(Push(s3), d.arguments, 0), d.body, 0))
  }

  /** The condition of `if` and `while` is checked as the comparison it is. */
  function VisitCondition(st: SemaState, c: Condition): SemaState {
    ExpectInteger(VisitExpression(st, Relational(c.lhs, c.rel, c.rhs)))
  }

  /** The statement visits. `if`, `else` and `while` bodies get a scope of
      their own; there is no rule for `for`, `break` or `continue`; an
      assignment only checks its two sides. After an error in an `if` or
      `while` body the source returns without closing the body's scope. */
  function VisitStatement(st: SemaState, s: Statement): SemaState
    decreases s, 1
  {
    if st.hasError then st
    else match s
      case Declare(d) => VisitVariableDeclaration(st, d)
      case If(c, body, elseBody) =>
        var s1 := VisitBlock(Push(VisitCondition(st, c)), body, 0);
        if s1.hasError then s1
        else Pop(VisitBlock(Push(Pop(s1)), elseBody, 0))
      case For(_, _, _, _) => st
      case While(c, body) =>
        var s1 := Push(VisitCondition(st, c));
        if s1.hasError then s1 else Pop(VisitBlock(s1, body, 0))
      case Break => st
      case Continue => st
      case Return(value) => if value.None? then st else VisitExpression(st, value.value)
      case Assign(lhs, rhs) =>
        var s1 := VisitFactor(st, lhs);
        if rhs.None? then s1 else VisitExpression(s1, rhs.value)
      case Print(e) => VisitExpression(st, e)
  }

  /** A statement sequence stops at the first error. */
  function VisitBlock(st: SemaState, b: Block, i: nat): SemaState
    requires i <= |b.statements|
    decreases b, |b.statements| - i
  {
    if i == |b.statements| || st.hasError then st
    else VisitBlock(VisitStatement(st, b.statements[i]), b, i + 1)
  }

  function VisitDeclaration(st: SemaState, d: Declaration): SemaState {
    match d
    case Global(vd) => VisitVariableDeclaration(st, vd)
    case Function(_, _, _, _) => VisitFunction(st, d)
  }

  function VisitDeclarations(st: SemaState, cu: CompilationUnit, i: nat): SemaState
    requires i <= |cu.declarations|
    decreases |cu.declarations| - i
  {
    if i == |cu.declarations| then st
    else
      var s := VisitDeclaration(st, cu.declarations[i]);
      if s.hasError then s else VisitDeclarations(s, cu, i + 1)
  }

  /** The compilation unit: the declarations in one global scope, stopping
      at the first error. */
  function VisitUnit(st: SemaState, cu: CompilationUnit): SemaState {
    if st.hasError then st else Pop(VisitDeclarations(Push(st), cu, 0))
  }

  /** `Sema::semantic`: true when the tree is missing or has an error. */
  function Semantic(cu: Option<CompilationUnit>): (failed: bool)
    ensures cu.None? ==> failed
  {
    cu.None? || VisitUnit(InitialState, cu.value).hasError
  }

  // ----- Reference typing -----

  /** The type of a well-typed expression. */
  datatype Ty = IntTy | ArrTy(size: nat)

  function TyOf(t: TypeSpec): Ty {
    match t
    case IntegerType => IntTy
    case ArrayType(size) => ArrTy(SizeOr(size, 0))
  }

  function KindOf(t: Ty): TypeKind {
    if t.IntTy? then Integer else Array
  }

  /** The declared array sizes are numbers that fit in 64 bits. */
  predicate SizeParses(t: TypeSpec) {
    t.ArrayType? ==> ParseSize(t.size).Some?
  }

  predicate DeclParses(d: Decl) {
    SizeParses(d.typ) &&
    (d.arguments.Some? ==> forall k :: 0 <= k < |d.arguments.value| ==> SizeParses(d.arguments.value[k].typ))
  }

  predicate ScopesParse(scopes: Scopes) {
    forall i, n :: 0 <= i < |scopes| && n in scopes[i] ==> DeclParses(scopes[i][n])
  }

  /** The typing rules of the language, stated on their own: `None` for an
      ill-typed expression. */
  function ExprType(scopes: Scopes, e: Expression): Option<Ty>
    decreases e, 1
  {
    match e
    case Plain(lhs) => SimpleType(scopes, lhs)
    case Relational(lhs, _, rhs) =>
      if SimpleType(scopes, lhs) == Some(IntTy) && SimpleType(scopes, rhs) == Some(IntTy)
      then Some(IntTy) else None
  }

  function SimpleType(scopes: Scopes, e: SimpleExpression): Option<Ty>
    decreases e, 1
  {
    if e.rest == [] then TermType(scopes, e.first)
    else if TermType(scopes, e.first) == Some(IntTy) &&
            forall k :: 0 <= k < |e.rest| ==> TermType(scopes, e.rest[k].term) == Some(IntTy)
    then Some(IntTy) else None
  }

  function TermType(scopes: Scopes, t: Term): Option<Ty>
    decreases t, 1
  {
    if t.rest == [] then OperandType(scopes, t.first)
    else if OperandType(scopes, t.first) == Some(IntTy) &&
            forall k :: 0 <= k < |t.rest| ==> OperandType(scopes, t.rest[k].operand) == Some(IntTy)
    then Some(IntTy) else None
  }

  function OperandType(scopes: Scopes, m: MulOperand): Option<Ty>
    decreases m, 1
  {
    var t := FactorType(scopes, m.factor);
    if m.unary.None? || t == Some(IntTy) then t else None
  }

  function FactorType(scopes: Scopes, f: Factor): Option<Ty>
    decreases f, 1
  {
    match f
    case Identifier(name) =>
      if FindDecl(scopes, name).None? then None else Some(TyOf(FindDecl(scopes, name).value.typ))
    case IntegerLiteral(_) => Some(IntTy)
    case ArrayInitialization(elements) =>
      if forall k :: 0 <= k < |elements| ==> ExprType(scopes, elements[k]) == Some(IntTy)
      then Some(ArrTy(|elements|)) else None
    case GetByIndex(name, index) =>
      if FindDecl(scopes, name).Some? && FindDecl(scopes, name).value.typ.ArrayType? &&
         ExprType(scopes, index) == Some(IntTy)
      then Some(IntTy) else None
    case ExpressionFactor(e) => ExprType(scopes, e)
    case FunctionCall(name, args) =>
      var found := FindDecl(scopes, name);
      if found.Some? && found.value.arguments.Some? &&
         |args| == |found.value.arguments.value| &&
         forall k :: 0 <= k < |args| ==> ExprType(scopes, args[k]) == Some(TyOf(found.value.arguments.value[k].typ))
      then Some(TyOf(found.value.typ)) else None
  }

  // ----- What the visitor keeps -----

  /** An expression visit changes no scope and never clears an error. */
  predicate Keeps(st: SemaState, r: SemaState) {
    r.scopes == st.scopes && (st.hasError ==> r.hasError)
  }

  lemma {:induction false} ExpressionKeeps(st: SemaState, e: Expression)
    ensures Keeps(st, VisitExpression(st, e))
    decreases e, 1
  {
    match e
    case Plain(lhs) => SimpleKeeps(st, lhs);
    case Relational(lhs, _, rhs) =>
      SimpleKeeps(st, lhs);
      SimpleKeeps(ExpectInteger(VisitSimple(st, lhs)), rhs);
  }

  lemma {:induction false} SimpleKeeps(st: SemaState, e: SimpleExpression)
    ensures Keeps(st, VisitSimple(st, e))
    decreases e, 1
  {
    TermKeeps(st, e.first);
    var s1 := VisitTerm(st, e.first);
    AddTermsKeeps(if |e.rest| > 0 && s1.lastType != Integer then Fail(s1) else s1, e, 0);
  }

  lemma {:induction false} AddTermsKeeps(st: SemaState, e: SimpleExpression, i: nat)
    requires i <= |e.rest|
    ensures Keeps(st, VisitAddTerms(st, e, i))
    decreases e, 0, |e.rest| - i
  {
    if i < |e.rest| {
      TermKeeps(st, e.rest[i].term);
      var s := ExpectInteger(VisitTerm(st, e.rest[i].term));
      if !s.hasError {
        AddTermsKeeps(s, e, i + 1);
      }
    }
  }

  lemma {:induction false} TermKeeps(st: SemaState, t: Term)
    ensures Keeps(st, VisitTerm(st, t))
    decreases t, 1
  {
    MulOperandKeeps(st, t.first);
    var s1 := VisitMulOperand(st, t.first);
    var s2 := if |t.rest| > 0 && s1.lastType != Integer then Fail(s1) else s1;
    if !s2.hasError {
      MulTermsKeeps(s2, t, 0);
    }
  }

  lemma {:induction false} MulTermsKeeps(st: SemaState, t: Term, i: nat)
    requires i <= |t.rest|
    ensures Keeps(st, VisitMulTerms(st, t, i))
    decreases t, 0, |t.rest| - i
  {
    if i < |t.rest| {
      MulOperandKeeps(st, t.rest[i].operand);
      var s := ExpectInteger(VisitMulOperand(st, t.rest[i].operand));
      if !s.hasError {
        MulTermsKeeps(s, t, i + 1);
      }
    }
  }

  lemma {:induction false} MulOperandKeeps(st: SemaState, m: MulOperand)
    ensures Keeps(st, VisitMulOperand(st, m))
    decreases m, 1
  {
    if !st.hasError {
      FactorKeeps(st, m.factor);
    }
  }

  lemma {:induction false} FactorKeeps(st: SemaState, f: Factor)
    ensures Keeps(st, VisitFactor(st, f))
    decreases f, 1
  {
    match f
    case Identifier(_) =>
    case IntegerLiteral(_) =>
    case ArrayInitialization(_) => ElementsKeeps(st, f, 0);
    case GetByIndex(name, index) =>
      var s1 := VisitIdentifier(st, name);
      if !s1.hasError && s1.lastType == Array {
        ExpressionKeeps(s1, index);
      }
    case ExpressionFactor(e) => ExpressionKeeps(st, e);
    case FunctionCall(name, _) =>
      var found := FindDecl(st.scopes, name);
      var s1 := (if found.None? then Fail(st) else st).(lastFunctionName := name);
      if !s1.hasError {
        ListKeeps(s1, found.value, f);
      }
  }

  lemma {:induction false} ElementsKeeps(st: SemaState, f: Factor, i: nat)
    requires f.ArrayInitialization? && i <= |f.elements|
    ensures Keeps(st, VisitElements(st, f, i))
    decreases f, 0, |f.elements| - i
  {
    if i < |f.elements| && !st.hasError {
      ExpressionKeeps(st, f.elements[i]);
      var s := ExpectInteger(VisitExpression(st, f.elements[i]));
      if !s.hasError {
        ElementsKeeps(s, f, i + 1);
      }
    }
  }

  lemma {:induction false} ListKeeps(st: SemaState, callee: Decl, f: Factor)
    requires f.FunctionCall?
    ensures Keeps(st, VisitExpressionsList(st, callee, f))
    decreases f, 0, |f.args| + 1
  {
    if callee.arguments.Some? {
      var params := callee.arguments.value;
      ArgsKeeps(if |f.args| != |params| then Fail(st) else st, params, f, 0);
    }
  }

  lemma {:induction false} ArgsKeeps(st: SemaState, params: seq<Argument>, f: Factor, i: nat)
    requires f.FunctionCall? && i <= |f.args|
    ensures Keeps(st, VisitArgs(st, params, f, i))
    decreases f, 0, |f.args| - i
  {
    if i < |f.args| && i < |params| {
      var s1 := VisitType(st, params[i].typ);
      ExpressionKeeps(s1, f.args[i]);
      var s2 := VisitExpression(s1, f.args[i]);
      if !s2.hasError && s1.lastType == s2.lastType {
        var s3 := if s1.lastType == Array && s1.lastArraySize != s2.lastArraySize then Fail(s2) else s2;
        ArgsKeeps(s3, params, f, i + 1);
      }
    }
  }

  // ----- The visitor agrees with the reference typing -----

  /** The checker's state after an expression matches its reference type:
      an error exactly for an ill-typed expression, and otherwise its kind
      and, for an array, its size. */
  predicate Agrees(r: SemaState, t: Option<Ty>) {
    (r.hasError <==> t.None?) &&
    (t.Some? ==> r.lastType == KindOf(t.value) && (t.value.ArrTy? ==> r.lastArraySize == t.value.size))
  }

  lemma {:induction false} FoundParses(scopes: Scopes, name: string)
    requires ScopesParse(scopes) && FindDecl(scopes, name).Some?
    ensures DeclParses(FindDecl(scopes, name).value)
    decreases |scopes|
  {
    if name !in scopes[0] {
      var rest := scopes[1..];
      assert ScopesParse(rest) by {
        forall i, n | 0 <= i < |rest| && n in rest[i]
          ensures DeclParses(rest[i][n])
        {
          assert rest[i] == scopes[i + 1];
        }
      }
      FoundParses(rest, name);
    }
  }

  /** Visiting a declared type gives that type's kind and size. */
  lemma TypeAgrees(st: SemaState, t: TypeSpec)
    requires !st.hasError && SizeParses(t)
    ensures Agrees(VisitType(st, t), Some(TyOf(t)))
  {
  }

  lemma {:induction false} ExpressionAgrees(st: SemaState, e: Expression)
    requires !st.hasError && ScopesParse(st.scopes)
    ensures Agrees(VisitExpression(st, e), ExprType(st.scopes, e))
    decreases e, 1
  {
    match e
    case Plain(lhs) => SimpleAgrees(st, lhs);
    case Relational(lhs, _, rhs) =>
      SimpleAgrees(st, lhs);
      SimpleKeeps(st, lhs);
      var s := ExpectInteger(VisitSimple(st, lhs));
      SimpleKeeps(s, rhs);
      if !s.hasError {
        SimpleAgrees(s, rhs);
      }
  }

  lemma {:induction false} SimpleAgrees(st: SemaState, e: SimpleExpression)
    requires !st.hasError && ScopesParse(st.scopes)
    ensures Agrees(VisitSimple(st, e), SimpleType(st.scopes, e))
    decreases e, 1
  {
    TermAgrees(st, e.first);
    TermKeeps(st, e.first);
    var s1 := VisitTerm(st, e.first);
    var s2 := if |e.rest| > 0 && s1.lastType != Integer then Fail(s1) else s1;
    AddTermsKeeps(s2, e, 0);
    if !s2.hasError && e.rest != [] {
      AddTermsAgrees(s2, e, 0);
    }
  }

  lemma {:induction false} AddTermsAgrees(st: SemaState, e: SimpleExpression, i: nat)
    requires !st.hasError && ScopesParse(st.scopes) && i <= |e.rest|
    ensures var r := VisitAddTerms(st, e, i);
      (!r.hasError <==> forall k :: i <= k < |e.rest| ==> TermType(st.scopes, e.rest[k].term) == Some(IntTy)) &&
      (!r.hasError && i < |e.rest| ==> r.lastType == Integer)
    decreases e, 0, |e.rest| - i
  {
    if i < |e.rest| {
      TermAgrees(st, e.rest[i].term);
      TermKeeps(st, e.rest[i].term);
      var s := ExpectInteger(VisitTerm(st, e.rest[i].term));
      if !s.hasError {
        AddTermsAgrees(s, e, i + 1);
      }
    }
  }

  lemma {:induction false} TermAgrees(st: SemaState, t: Term)
    requires !st.hasError && ScopesParse(st.scopes)
    ensures Agrees(VisitTerm(st, t), TermType(st.scopes, t))
    decreases t, 1
  {
    MulOperandAgrees(st, t.first);
    MulOperandKeeps(st, t.first);
    var s1 := VisitMulOperand(st, t.first);
    var s2 := if |t.rest| > 0 && s1.lastType != Integer then Fail(s1) else s1;
    if !s2.hasError && t.rest != [] {
      MulTermsAgrees(s2, t, 0);
    }
  }

  lemma {:induction false} MulTermsAgrees(st: SemaState, t: Term, i: nat)
    requires !st.hasError && ScopesParse(st.scopes) && i <= |t.rest|
    ensures var r := VisitMulTerms(st, t, i);
      (!r.hasError <==> forall k :: i <= k < |t.rest| ==> OperandType(st.scopes, t.rest[k].operand) == Some(IntTy)) &&
      (!r.hasError && i < |t.rest| ==> r.lastType == Integer)
    decreases t, 0, |t.rest| - i
  {
    if i < |t.rest| {
      MulOperandAgrees(st, t.rest[i].operand);
      MulOperandKeeps(st, t.rest[i].operand);
      var s := ExpectInteger(VisitMulOperand(st, t.rest[i].operand));
      if !s.hasError {
        MulTermsAgrees(s, t, i + 1);
      }
    }
  }

  lemma {:induction false} MulOperandAgrees(st: SemaState, m: MulOperand)
    requires !st.hasError && ScopesParse(st.scopes)
    ensures Agrees(VisitMulOperand(st, m), OperandType(st.scopes, m))
    decreases m, 1
  {
    FactorAgrees(st, m.factor);
  }

  lemma {:induction false} FactorAgrees(st: SemaState, f: Factor)
    requires !st.hasError && ScopesParse(st.scopes)
    ensures Agrees(VisitFactor(st, f), FactorType(st.scopes, f))
    decreases f, 1
  {
    match f
    case Identifier(name) =>
      if FindDecl(st.scopes, name).Some? {
        FoundParses(st.scopes, name);
        TypeAgrees(st, FindDecl(st.scopes, name).value.typ);
      }
    case IntegerLiteral(_) =>
    case ArrayInitialization(_) => ElementsAgrees(st, f, 0);
    case GetByIndex(name, index) =>
      var s1 := VisitIdentifier(st, name);
      if FindDecl(st.scopes, name).Some? {
        FoundParses(st.scopes, name);
        TypeAgrees(st, FindDecl(st.scopes, name).value.typ);
        if s1.lastType == Array {
          ExpressionAgrees(s1, index);
        }
      }
    case ExpressionFactor(e) => ExpressionAgrees(st, e);
    case FunctionCall(name, _) =>
      var found := FindDecl(st.scopes, name);
      if found.Some? {
        FoundParses(st.scopes, name);
        var s1 := st.(lastFunctionName := name);
        ListAgrees(s1, found.value, f);
        var s2 := VisitExpressionsList(s1, found.value, f);
        if !s2.hasError {
          TypeAgrees(s2, found.value.typ);
        }
      }
  }

  lemma {:induction false} ElementsAgrees(st: SemaState, f: Factor, i: nat)
    requires !st.hasError && ScopesParse(st.scopes)
    requires f.ArrayInitialization? && i <= |f.elements|
    ensures var r := VisitElements(st, f, i);
      (!r.hasError <==> forall k :: i <= k < |f.elements| ==> ExprType(st.scopes, f.elements[k]) == Some(IntTy)) &&
      (!r.hasError ==> r.lastType == Array && r.lastArraySize == |f.elements|)
    decreases f, 0, |f.elements| - i
  {
    if i < |f.elements| {
      ExpressionAgrees(st, f.elements[i]);
      ExpressionKeeps(st, f.elements[i]);
      var s := ExpectInteger(VisitExpression(st, f.elements[i]));
      if !s.hasError {
        ElementsAgrees(s, f, i + 1);
      }
    }
  }

  lemma {:induction false} ListAgrees(st: SemaState, callee: Decl, f: Factor)
    requires !st.hasError && ScopesParse(st.scopes) && DeclParses(callee)
    requires f.FunctionCall?
    ensures var r := VisitExpressionsList(st, callee, f);
      r.scopes == st.scopes &&
      (!r.hasError <==>
        callee.arguments.Some? && |f.args| == |callee.arguments.value| &&
        forall k :: 0 <= k < |f.args| ==> ExprType(st.scopes, f.args[k]) == Some(TyOf(callee.arguments.value[k].typ)))
    decreases f, 0, |f.args| + 1
  {
    ListKeeps(st, callee, f);
    if callee.arguments.Some? {
      var params := callee.arguments.value;
      if |f.args| != |params| {
        ArgsKeeps(Fail(st), params, f, 0);
      } else {
        ArgsAgrees(st, params, f, 0);
      }
    }
  }

  lemma {:induction false} ArgsAgrees(st: SemaState, params: seq<Argument>, f: Factor, i: nat)
    requires !st.hasError && ScopesParse(st.scopes)
    requires f.FunctionCall? && i <= |f.args| && |params| == |f.args|
    requires forall k :: 0 <= k < |params| ==> SizeParses(params[k].typ)
    ensures var r := VisitArgs(st, params, f, i);
      !r.hasError <==> forall k :: i <= k < |f.args| ==> ExprType(st.scopes, f.args[k]) == Some(TyOf(params[k].typ))
    decreases f, 0, |f.args| - i
  {
    if i < |f.args| {
      var s1 := VisitType(st, params[i].typ);
      TypeAgrees(st, params[i].typ);
      ExpressionAgrees(s1, f.args[i]);
      ExpressionKeeps(s1, f.args[i]);
      var s2 := VisitExpression(s1, f.args[i]);
      if !s2.hasError && s1.lastType == s2.lastType {
        var s3 := if s1.lastType == Array && s1.lastArraySize != s2.lastArraySize then Fail(s2) else s2;
        ArgsKeeps(s3, params, f, i + 1);
        if !s3.hasError {
          ArgsAgrees(s3, params, f, i + 1);
        }
      }
    }
  }

  // ----- Declarations -----

  /** Declaring a name visible nowhere makes lookup find it and leaves every
      other lookup as it was. */
  lemma DeclareFinds(st: SemaState, name: string, d: Decl)
    requires st.scopes != [] && FindDecl(st.scopes, name).None?
    ensures var r := DeclareName(st, name, d).scopes;
      |r| == |st.scopes| && r[1..] == st.scopes[1..] &&
      forall n :: FindDecl(r, n) == if n == name then Some(d) else FindDecl(st.scopes, n)
  {
    var r := DeclareName(st, name, d).scopes;
    assert r[1..] == st.scopes[1..];
  }

  /** A variable declaration that passes declares its name, visible nowhere
      before, in the innermost scope, and changes no other lookup. */
  lemma VariableDeclarationScopes(st: SemaState, d: VariableDeclaration)
    requires !st.hasError && st.scopes != []
    ensures var r := VisitVariableDeclaration(st, d);
      !r.hasError ==>
        FindDecl(st.scopes, d.name).None? &&
        |r.scopes| == |st.scopes| && r.scopes[1..] == st.scopes[1..] &&
        forall n :: FindDecl(r.scopes, n) == if n == d.name then Some(Decl(d.typ, d.init.Some?, None)) else FindDecl(st.scopes, n)
  {
    var s1 := VisitType(st, d.typ);
    if FindDecl(st.scopes, d.name).None? {
      if d.init.None? {
        DeclareFinds(s1, d.name, Decl(d.typ, false, None));
      } else {
        ExpressionKeeps(s1, d.init.value);
        var s2 := VisitExpression(s1, d.init.value);
        if !s2.hasError && s1.lastType == s2.lastType {
          var s3 := if s1.lastType == Array && s1.lastArraySize != s2.lastArraySize then Fail(s2) else s2;
          DeclareFinds(s3, d.name, Decl(d.typ, true, None));
        }
      }
    }
  }

  /** The declaration rule: a variable declaration passes exactly when its
      name is visible nowhere and its initializer, if any, has the declared
      type, for an array with the declared size. */
  lemma VariableDeclarationRule(st: SemaState, d: VariableDeclaration)
    requires !st.hasError && st.scopes != [] && ScopesParse(st.scopes) && SizeParses(d.typ)
    ensures var r := VisitVariableDeclaration(st, d);
      (!r.hasError <==>
        FindDecl(st.scopes, d.name).None? &&
        (d.init.None? || ExprType(st.scopes, d.init.value) == Some(TyOf(d.typ)))) &&
      (!r.hasError ==> ScopesParse(r.scopes))
  {
    VariableDeclarationScopes(st, d);
    var r := VisitVariableDeclaration(st, d);
    if FindDecl(st.scopes, d.name).None? {
      var s1 := VisitType(st, d.typ);
      TypeAgrees(st, d.typ);
      if d.init.Some? {
        ExpressionAgrees(s1, d.init.value);
        ExpressionKeeps(s1, d.init.value);
      }
      if !r.hasError {
        forall i, n | 0 <= i < |r.scopes| && n in r.scopes[i]
          ensures DeclParses(r.scopes[i][n])
        {
          if i > 0 {
            assert r.scopes[i] == r.scopes[1..][i - 1] == st.scopes[i];
          } else if n != d.name {
            assert r.scopes[0][n] == st.scopes[0][n];
          }
        }
      }
    }
  }

  /** The argument-list rule: the parameters pass exactly when no parameter
      name is visible and no two parameters share a name; each is then
      declared with its type in the function's scope. */
  lemma {:induction false} ArgumentsRule(st: SemaState, args: seq<Argument>, i: nat)
    requires !st.hasError && st.scopes != [] && i <= |args|
    ensures var r := VisitArguments(st, args, i);
      |r.scopes| == |st.scopes| && r.scopes[1..] == st.scopes[1..] &&
      (!r.hasError <==>
        (forall k :: i <= k < |args| ==> FindDecl(st.scopes, args[k].name).None?) &&
        (forall j, k :: i <= j < k < |args| ==> args[j].name != args[k].name)) &&
      (!r.hasError ==>
        (forall k :: i <= k < |args| ==> FindDecl(r.scopes, args[k].name) == Some(Decl(args[k].typ, true, None))) &&
        (forall n :: (forall k :: i <= k < |args| ==> args[k].name != n) ==> FindDecl(r.scopes, n) == FindDecl(st.scopes, n)))
    decreases |args| - i
  {
    if i < |args| && FindDecl(st.scopes, args[i].name).None? {
      var a := args[i];
      var d := Decl(a.typ, true, None);
      var s1 := VisitType(st, a.typ);
      var s2 := DeclareName(s1, a.name, d);
      DeclareFinds(s1, a.name, d);
      ArgumentsRule(s2, args, i + 1);
      var r := VisitArguments(s2, args, i + 1);
      assert r == VisitArguments(st, args, i);
      ArgumentsFreshStep(st.scopes, s2.scopes, args, i, d);
      if !r.hasError {
        ArgumentsFindStep(st.scopes, s2.scopes, r.scopes, args, i);
      }
    }
  }

  /** The names from `i` on are new and distinct exactly when the name at
      `i` is new and, with it declared, the names from `i + 1` on are. */
  lemma ArgumentsFreshStep(before: Scopes, after: Scopes, args: seq<Argument>, i: nat, d: Decl)
    requires i < |args| && FindDecl(before, args[i].name).None?
    requires forall n :: FindDecl(after, n) == if n == args[i].name then Some(d) else FindDecl(before, n)
    ensures ((forall k :: i + 1 <= k < |args| ==> FindDecl(after, args[k].name).None?) &&
             (forall j, k :: i + 1 <= j < k < |args| ==> args[j].name != args[k].name))
        <==> ((forall k :: i <= k < |args| ==> FindDecl(before, args[k].name).None?) &&
              (forall j, k :: i <= j < k < |args| ==> args[j].name != args[k].name))
  {
    if forall k :: i + 1 <= k < |args| ==> FindDecl(after, args[k].name).None? {
      forall k | i + 1 <= k < |args|
        ensures args[i].name != args[k].name && FindDecl(before, args[k].name).None?
      {
        assert FindDecl(after, args[k].name).None?;
      }
    }
  }

  /** What lookup finds after the parameters from `i + 1` on were declared
      over the one at `i`. */
  lemma ArgumentsFindStep(before: Scopes, after: Scopes, r: Scopes, args: seq<Argument>, i: nat)
    requires i < |args|
    requires forall n :: FindDecl(after, n) == (if n == args[i].name then Some(Decl(args[i].typ, true, None)) else FindDecl(before, n))
    requires forall j, k :: i <= j < k < |args| ==> args[j].name != args[k].name
    requires forall k :: i + 1 <= k < |args| ==> FindDecl(r, args[k].name) == Some(Decl(args[k].typ, true, None))
    requires forall n :: (forall k :: i + 1 <= k < |args| ==> args[k].name != n) ==> FindDecl(r, n) == FindDecl(after, n)
    ensures forall k :: i <= k < |args| ==> FindDecl(r, args[k].name) == Some(Decl(args[k].typ, true, None))
    ensures forall n :: (forall k :: i <= k < |args| ==> args[k].name != n) ==> FindDecl(r, n) == FindDecl(before, n)
  {
    assert forall k :: i + 1 <= k < |args| ==> args[k].name != args[i].name;
    assert FindDecl(r, args[i].name) == FindDecl(after, args[i].name);
    forall n | forall k :: i <= k < |args| ==> args[k].name != n
      ensures FindDecl(r, n) == FindDecl(before, n)
    {
      assert args[i].name != n;
    }
  }

  /** A statement that passes leaves the scope chain as deep as it found it,
      and every scope but the innermost as it was. */
  lemma {:induction false} StatementScopes(st: SemaState, s: Statement)
    requires st.scopes != []
    ensures var r := VisitStatement(st, s);
      !r.hasError ==> |r.scopes| == |st.scopes| && r.scopes[1..] == st.scopes[1..]
    decreases s, 1
  {
    if !st.hasError {
      match s
      case Declare(d) => VariableDeclarationScopes(st, d);
      case If(c, body, elseBody) =>
        ExpressionKeeps(st, Relational(c.lhs, c.rel, c.rhs));
        var s0 := VisitCondition(st, c);
        BlockScopes(Push(s0), body, 0);
        var s1 := VisitBlock(Push(s0), body, 0);
        if !s1.hasError {
          BlockScopes(Push(Pop(s1)), elseBody, 0);
        }
      case For(_, _, _, _) =>
      case While(c, body) =>
        ExpressionKeeps(st, Relational(c.lhs, c.rel, c.rhs));
        BlockScopes(Push(VisitCondition(st, c)), body, 0);
      case Break =>
      case Continue =>
      case Return(value) =>
        if value.Some? {
          ExpressionKeeps(st, value.value);
        }
      case Assign(lhs, rhs) =>
        FactorKeeps(st, lhs);
        if rhs.Some? {
          ExpressionKeeps(VisitFactor(st, lhs), rhs.value);
        }
      case Print(e) => ExpressionKeeps(st, e);
    }
  }

  lemma {:induction false} BlockScopes(st: SemaState, b: Block, i: nat)
    requires st.scopes != [] && i <= |b.statements|
    ensures var r := VisitBlock(st, b, i);
      !r.hasError ==> |r.scopes| == |st.scopes| && r.scopes[1..] == st.scopes[1..]
    decreases b, |b.statements| - i
  {
    if i < |b.statements| && !st.hasError {
      StatementScopes(st, b.statements[i]);
      var s := VisitStatement(st, b.statements[i]);
      if !s.hasError {
        BlockScopes(s, b, i + 1);
        assert s.scopes[1..] == st.scopes[1..];
      }
    }
  }

  /** The function rule: a function whose name is visible, or that has no
      return type, is an error. One that passes is declared with its return
      type and parameter list, and no other lookup changes. */
  lemma FunctionDeclarationRule(st: SemaState, d: Declaration)
    requires !st.hasError && st.scopes != [] && d.Function?
    ensures var r := VisitFunction(st, d);
      ((FindDecl(st.scopes, d.name).Some? || d.returnType.None?) ==> r.hasError) &&
      (!r.hasError ==>
        |r.scopes| == |st.scopes| &&
        forall n :: FindDecl(r.scopes, n) ==
          if n == d.name then Some(Decl(d.returnType.value, true, Some(d.arguments))) else FindDecl(st.scopes, n))
  {
    if FindDecl(st.scopes, d.name).None? && d.returnType.Some? {
      var s2 := VisitType(st, d.returnType.value);
      var s3 := DeclareName(s2, d.name, Decl(d.returnType.value, true, Some(d.arguments)));
      DeclareFinds(s2, d.name, Decl(d.returnType.value, true, Some(d.arguments)));
      ArgumentsRule(Push(s3), d.arguments, 0);
      var s4 := VisitArguments(Push(s3), d.arguments, 0);
      BlockScopes(s4, d.body, 0);
    }
  }

  // ----- The compilation unit -----

  function DeclaredName(d: Declaration): string {
    match d
    case Global(vd) => vd.name
    case Function(name, _, _, _) => name
  }

  /** A top-level declaration whose name is visible fails; one that passes
      makes its name visible and keeps every name visible before. */
  lemma DeclarationEffect(st: SemaState, d: Declaration)
    requires !st.hasError && st.scopes != []
    ensures var r := VisitDeclaration(st, d);
      (FindDecl(st.scopes, DeclaredName(d)).Some? ==> r.hasError) &&
      (!r.hasError ==>
        |r.scopes| == |st.scopes| && FindDecl(r.scopes, DeclaredName(d)).Some? &&
        forall n :: FindDecl(st.scopes, n).Some? ==> FindDecl(r.scopes, n).Some?)
  {
    match d
    case Global(vd) => VariableDeclarationScopes(st, vd);
    case Function(_, _, _, _) => FunctionDeclarationRule(st, d);
  }

  lemma {:induction false} VisibleNameRejected(st: SemaState, cu: CompilationUnit, i: nat, k: nat)
    requires !st.hasError && st.scopes != [] && i <= k < |cu.declarations|
    requires FindDecl(st.scopes, DeclaredName(cu.declarations[k])).Some?
    ensures VisitDeclarations(st, cu, i).hasError
    decreases k - i
  {
    DeclarationEffect(st, cu.declarations[i]);
    var s := VisitDeclaration(st, cu.declarations[i]);
    if !s.hasError {
      VisibleNameRejected(s, cu, i + 1, k);
    }
  }

  lemma {:induction false} DuplicateRejected(st: SemaState, cu: CompilationUnit, i: nat, j: nat, k: nat)
    requires !st.hasError && st.scopes != [] && i <= j < k < |cu.declarations|
    requires DeclaredName(cu.declarations[j]) == DeclaredName(cu.declarations[k])
    ensures VisitDeclarations(st, cu, i).hasError
    decreases j - i
  {
    DeclarationEffect(st, cu.declarations[i]);
    var s := VisitDeclaration(st, cu.declarations[i]);
    if !s.hasError {
      if i == j {
        VisibleNameRejected(s, cu, i + 1, k);
      } else {
        DuplicateRejected(s, cu, i + 1, j, k);
      }
    }
  }

  /** Two top-level declarations of one name make the check fail: a name is
      never declared twice, not even a function over a global variable. */
  lemma DuplicateNamesRejected(cu: CompilationUnit, j: nat, k: nat)
    requires j < k < |cu.declarations|
    requires DeclaredName(cu.declarations[j]) == DeclaredName(cu.declarations[k])
    ensures Semantic(Some(cu))
  {
    DuplicateRejected(Push(InitialState), cu, 0, j, k);
  }
}
