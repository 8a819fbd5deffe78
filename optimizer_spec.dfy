/** What the dead-code optimizer's passes compute, as functions of the
    bytecode and of the liveness mask (`true` = the instruction is kept). */
module OptimizerSpec {
  import opened Basics
  import opened Bytecode

  /** `operationsStackUsage`: how many operand-stack values the optimizer
      believes each operation consumes. */
  function Usage(op: Operation): nat {
    match op
    case Add | Sub | Mul | Div | Mod => 2
    case Push | IntegerLoad | ArrayLoad => 0
    case LoadFromIndex | IntegerStore | ArrayStore | StoreInIndex => 1
    case NewArray | Print => 1
    case FunBegin | FunEnd | FunCall => 0
    case Return | Label => 1
    case Jump => 0
    case Cmp => 2
    case JumpEq | JumpNe | JumpLt | JumpLe | JumpGt | JumpGe => 0
  }

  /** The usage table agrees with the instruction set's documented pops
      except in three places: STORE_IN_INDEX pops two values but is counted
      as one, LABEL pops none but is counted as one, and FUN_CALL is counted
      as none whatever the callee's parameter count. */
  lemma UsageAgainstDocumentation(op: Operation)
    ensures op !in {StoreInIndex, Label, FunCall, Return} ==>
      DocumentedEffect(op).Some? && Usage(op) == DocumentedEffect(op).value.pops
    ensures Usage(StoreInIndex) == 1 && DocumentedEffect(StoreInIndex).value.pops == 2
    ensures Usage(Label) == 1 && DocumentedEffect(Label).value.pops == 0
    ensures Usage(FunCall) == 0
  {
  }

  predicate IsStore(op: Operation) {
    op == IntegerStore || op == ArrayStore || op == StoreInIndex
  }

  predicate IsLoad(op: Operation) {
    op == IntegerLoad || op == ArrayLoad || op == LoadFromIndex
  }

  /** Every instruction whose first operand the optimizer reads has one. */
  predicate WellFormed(ops: seq<Instruction>) {
    forall i :: 0 <= i < |ops| ==>
      (IsStore(ops[i].op) || IsLoad(ops[i].op) || ops[i].op == FunBegin || ops[i].op == FunCall) ==> ops[i].operands != []
  }

  // ---------------------------------------------------------------------
  // The backward walk of VariableStoringElimination

  /** Values still owed, counting back from the instruction at `i` down to
      `j`, when `pending` are owed after `i`: every instruction supplies one
      value and consumes `Usage` of its own. */
  function Owed(ops: seq<Instruction>, j: int, i: int, pending: int): int
    requires 0 <= j <= i + 1 && i < |ops|
    decreases i + 1 - j
  {
    if j == i + 1 then pending else Owed(ops, j + 1, i, pending) - 1 + Usage(ops[j].op)
  }

  /** Where the walk that starts at `i` owing `pending` values stops: the
      index whose processing brings the count to zero, or -1 when the count
      is still positive after index 0. */
  function WalkStop(ops: seq<Instruction>, i: int, pending: nat): (stop: int)
    requires 0 <= i < |ops| && pending > 0
    ensures -1 <= stop <= i
    decreases i
  {
    var p := pending - 1 + Usage(ops[i].op);
    if p == 0 then i else if i == 0 then -1 else WalkStop(ops, i - 1, p)
  }

  /** The walk from a store at `start` stops at the nearest `stop` such that
      `ops[stop..start]` supplies exactly the one value the store needs: the
      count owed is zero there and positive at every index above it. */
  lemma WalkStopMeaning(ops: seq<Instruction>, start: int)
    requires 0 <= start < |ops|
    ensures var stop := WalkStop(ops, start, 1);
      && (stop >= 0 ==> Owed(ops, stop, start, 1) == 0)
      && (forall j :: stop < j <= start ==> Owed(ops, j, start, 1) > 0)
  {
    WalkStopFrom(ops, start, start);
  }

  lemma {:induction false} WalkStopFrom(ops: seq<Instruction>, start: int, i: int)
    requires 0 <= i <= start < |ops|
    requires forall j :: i < j <= start ==> Owed(ops, j, start, 1) > 0
    ensures Owed(ops, i + 1, start, 1) > 0
    ensures var stop := WalkStop(ops, i, Owed(ops, i + 1, start, 1));
      && (stop >= 0 ==> Owed(ops, stop, start, 1) == 0)
      && (forall j :: stop < j <= start ==> Owed(ops, j, start, 1) > 0)
    decreases i
  {
    var p := Owed(ops, i + 1, start, 1);
    assert Owed(ops, i, start, 1) == p - 1 + Usage(ops[i].op);
    if p - 1 + Usage(ops[i].op) != 0 && i > 0 {
      WalkStopFrom(ops, start, i - 1);
    }
  }

  /** The walk of every live store in `ops[begin..end]` stops above index
      0: the source reads the instruction before the last one it visits, so
      a walk reaching index 0 reads before the start of the bytecode. */
  predicate LiveWalksStop(ops: seq<Instruction>, mask: seq<bool>, begin: int, end: int)
    requires |mask| == |ops|
  {
    forall i :: begin <= i < end && 0 <= i < |ops| && mask[i] && IsStore(ops[i].op) ==> WalkStop(ops, i, 1) > 0
  }

  /** The walk of every store inside a function stops above index 0. Stores
      of global initializers, outside every function, are not walked. */
  predicate FunctionWalksStop(ops: seq<Instruction>) {
    forall i :: 0 <= i < |ops| && IsStore(ops[i].op) && InsideFunction(ops, i) ==> WalkStop(ops, i, 1) > 0
  }

  /** A mask that only loses entries keeps the walk bound of a larger one. */
  lemma LiveWalksStopWithin(ops: seq<Instruction>, t: seq<bool>, s: seq<bool>, begin: int, end: int)
    requires |s| == |ops| && Within(t, s) && LiveWalksStop(ops, s, 0, |ops|)
    ensures LiveWalksStop(ops, t, begin, end)
  {
  }

  /** The mask with entries `lo .. hi - 1` cleared. */
  function ClearRange(s: seq<bool>, lo: int, hi: int): (t: seq<bool>)
    ensures |t| == |s|
    ensures forall k :: 0 <= k < |s| && lo <= k < hi ==> !t[k]
    ensures forall k :: 0 <= k < |s| && !(lo <= k < hi) ==> t[k] == s[k]
  {
    seq(|s|, k requires 0 <= k < |s| => if lo <= k < hi then false else s[k])
  }

  // ---------------------------------------------------------------------
  // Counting kept entries

  function CountTrue(s: seq<bool>): nat {
    if s == [] then 0 else CountTrue(s[..|s| - 1]) + (if s[|s| - 1] then 1 else 0)
  }

  /** `t` keeps no entry `s` dropped. */
  predicate Within(t: seq<bool>, s: seq<bool>) {
    |t| == |s| && forall k :: 0 <= k < |t| && t[k] ==> s[k]
  }

  /** Dropping entries never adds to the count, and dropping a kept one
      lowers it. */
  lemma {:induction false} CountTrueWithin(t: seq<bool>, s: seq<bool>)
    requires Within(t, s)
    ensures CountTrue(t) <= CountTrue(s)
    ensures (exists k :: 0 <= k < |s| && s[k] && !t[k]) ==> CountTrue(t) < CountTrue(s)
    decreases |s|
  {
    if s != [] {
      var n := |s|;
      assert Within(t[..n - 1], s[..n - 1]);
      CountTrueWithin(t[..n - 1], s[..n - 1]);
      if exists k :: 0 <= k < n && s[k] && !t[k] {
        var k :| 0 <= k < n && s[k] && !t[k];
        if k < n - 1 {
          assert s[..n - 1][k] && !t[..n - 1][k];
        }
      }
    }
  }

  // ---------------------------------------------------------------------
  // Useless variables

  predicate LiveStore(ops: seq<Instruction>, mask: seq<bool>, i: int, v: string)
    requires |mask| == |ops| && WellFormed(ops)
  {
    0 <= i < |ops| && mask[i] && IsStore(ops[i].op) && ops[i].operands[0] == v
  }

  predicate LiveLoad(ops: seq<Instruction>, mask: seq<bool>, i: int, v: string)
    requires |mask| == |ops| && WellFormed(ops)
  {
    0 <= i < |ops| && mask[i] && IsLoad(ops[i].op) && ops[i].operands[0] == v
  }

  /** `v` has a live store and no live load in `ops[begin..end]`. */
  ghost predicate Useless(ops: seq<Instruction>, mask: seq<bool>, begin: int, end: int, v: string)
    requires |mask| == |ops| && WellFormed(ops)
  {
    && (exists i :: begin <= i < end && LiveStore(ops, mask, i, v))
    && !(exists i :: begin <= i < end && LiveLoad(ops, mask, i, v))
  }

  /** `i` is the first live store, in `ops[begin..end]`, of the useless
      variable that comes first in the order of a `std::map<std::string, _>`
      (lexicographic order of the names). */
  ghost predicate FirstEliminated(ops: seq<Instruction>, mask: seq<bool>, begin: int, end: int, i: int)
    requires |mask| == |ops| && WellFormed(ops)
  {
    && begin <= i < end
    && 0 <= i < |ops| && IsStore(ops[i].op)
    && var v := ops[i].operands[0];
    && LiveStore(ops, mask, i, v)
    && Useless(ops, mask, begin, end, v)
    && (forall j :: begin <= j < i ==> !LiveStore(ops, mask, j, v))
    && (forall w :: Useless(ops, mask, begin, end, w) ==> w == v || LexLess(v, w))
  }

  /** Strict lexicographic order of strings by character code. */
  predicate LexLess(a: string, b: string) {
    if a == [] then b != []
    else if b == [] then false
    else if a[0] != b[0] then a[0] < b[0]
    else LexLess(a[1..], b[1..])
  }

  lemma LexLessIrreflexive(a: string)
    ensures !LexLess(a, a)
  {
  }

  lemma {:induction false} LexLessAsymmetric(a: string, b: string)
    requires LexLess(a, b)
    ensures !LexLess(b, a)
  {
    if a != [] && b != [] && a[0] == b[0] {
      LexLessAsymmetric(a[1..], b[1..]);
    }
  }

  lemma {:induction false} LexLessTransitive(a: string, b: string, c: string)
    requires LexLess(a, b) && LexLess(b, c)
    ensures LexLess(a, c)
  {
    if a != [] && b != [] && c != [] && a[0] == b[0] && b[0] == c[0] {
      LexLessTransitive(a[1..], b[1..], c[1..]);
    }
  }

  lemma {:induction false} LexLessTotal(a: string, b: string)
    requires a != b
    ensures LexLess(a, b) || LexLess(b, a)
  {
    if a != [] && b != [] && a[0] == b[0] {
      assert a == [a[0]] + a[1..] && b == [b[0]] + b[1..];
      LexLessTotal(a[1..], b[1..]);
    }
  }

  /** The last live FUN_BEGIN before `e`, or -1. */
  function LastLiveFunBegin(ops: seq<Instruction>, mask: seq<bool>, e: int): (b: int)
    requires |mask| == |ops| && 0 <= e <= |ops|
    ensures -1 <= b < e
    ensures b >= 0 ==> mask[b] && ops[b].op == FunBegin
    ensures forall k :: b < k < e ==> !(mask[k] && ops[k].op == FunBegin)
    decreases e
  {
    if e == 0 then -1
    else if mask[e - 1] && ops[e - 1].op == FunBegin then e - 1
    else LastLiveFunBegin(ops, mask, e - 1)
  }

  /** No function, delimited by a live FUN_END and the last live FUN_BEGIN
      before it, has a useless variable: nothing is left for
      `VariableElimination` to remove. */
  ghost predicate NoUselessVariables(ops: seq<Instruction>, mask: seq<bool>)
    requires |mask| == |ops| && WellFormed(ops)
  {
    forall e, v :: 0 <= e < |ops| && mask[e] && ops[e].op == FunEnd && LastLiveFunBegin(ops, mask, e) >= 0 ==>
      !Useless(ops, mask, LastLiveFunBegin(ops, mask, e), e, v)
  }

  /** No function that ends at a live FUN_END before `k` has a useless
      variable. */
  ghost predicate CleanBefore(ops: seq<Instruction>, mask: seq<bool>, k: int)
    requires |mask| == |ops| && WellFormed(ops) && k <= |ops|
  {
    forall e, v :: 0 <= e < k && mask[e] && ops[e].op == FunEnd && LastLiveFunBegin(ops, mask, e) >= 0 ==>
      !Useless(ops, mask, LastLiveFunBegin(ops, mask, e), e, v)
  }

  /** Where a pass of VariableElimination starts the function that ends at
      the live FUN_END `e`: the last live FUN_BEGIN before it, or, when
      there is none, the index the pass carried over. */
  function FunctionStart(ops: seq<Instruction>, mask: seq<bool>, e: int, carried: nat): int
    requires |mask| == |ops| && 0 <= e <= |ops|
  {
    var b := LastLiveFunBegin(ops, mask, e);
    if b >= 0 then b else carried
  }

  /** The index a pass carries over: 0 at first, and afterwards the index
      of a FUN_BEGIN. */
  predicate CarriedStart(ops: seq<Instruction>, carried: nat) {
    carried == 0 || (carried < |ops| && ops[carried].op == FunBegin)
  }

  /** A pass of VariableElimination, starting from `before` with the index
      `carried`, removes in the function that ends at the live FUN_END `e`:
      every earlier function has no useless variable, the function starts
      live (at its last live FUN_BEGIN, or at `carried` when there is
      none), `i` is its first eliminated store, and `after` is `before`
      with the walk of `i` cleared. */
  ghost predicate PassRemovesAt(ops: seq<Instruction>, before: seq<bool>, carried: nat, e: int, i: int, after: seq<bool>)
    requires |before| == |ops| && WellFormed(ops)
  {
    && 0 <= e < |ops| && before[e] && ops[e].op == FunEnd
    && CleanBefore(ops, before, e)
    && 0 <= FunctionStart(ops, before, e, carried) < |ops|
    && before[FunctionStart(ops, before, e, carried)]
    && FirstEliminated(ops, before, FunctionStart(ops, before, e, carried), e, i)
    && after == ClearRange(before, WalkStop(ops, i, 1), i + 1)
  }

  /** What a pass of VariableElimination that removes something does: in
      the first live function, in program order, that has a useless
      variable, it clears the walk of the first eliminated store. */
  ghost predicate PassRemoval(ops: seq<Instruction>, before: seq<bool>, carried: nat, after: seq<bool>)
    requires |before| == |ops| && WellFormed(ops)
  {
    exists e, i :: PassRemovesAt(ops, before, carried, e, i, after)
  }

  /** `after` is `before` after one pass that removes something, from an
      index the pass may have carried over. */
  ghost predicate RemovalStep(ops: seq<Instruction>, before: seq<bool>, after: seq<bool>)
    requires |before| == |ops| && WellFormed(ops)
  {
    exists carried: nat, e, i :: CarriedStart(ops, carried) && PassRemovesAt(ops, before, carried, e, i, after)
  }

  lemma PassRemovalStep(ops: seq<Instruction>, before: seq<bool>, carried: nat, after: seq<bool>)
    requires |before| == |ops| && WellFormed(ops) && CarriedStart(ops, carried)
    requires PassRemoval(ops, before, carried, after)
    ensures RemovalStep(ops, before, after)
  {
    var e, i :| PassRemovesAt(ops, before, carried, e, i, after);
  }

  /** What one removal step is: in the first function, in program order,
      with a useless variable, the walk of its first eliminated store is
      cleared. The function ends at a live FUN_END and starts at the last
      live FUN_BEGIN before it; only when there is none does it start at
      index 0 or at an earlier FUN_BEGIN carried over from a previous
      pass. */
  lemma RemovalStepMeaning(ops: seq<Instruction>, before: seq<bool>, after: seq<bool>)
    requires |before| == |ops| && WellFormed(ops) && RemovalStep(ops, before, after)
    ensures exists b, e, i ::
      && 0 <= b <= i < e < |ops| && before[b] && before[e] && ops[e].op == FunEnd
      && (LastLiveFunBegin(ops, before, e) >= 0 ==> b == LastLiveFunBegin(ops, before, e))
      && (LastLiveFunBegin(ops, before, e) < 0 ==> b == 0 || ops[b].op == FunBegin)
      && CleanBefore(ops, before, e)
      && FirstEliminated(ops, before, b, e, i)
      && after == ClearRange(before, WalkStop(ops, i, 1), i + 1)
  {
    var c: nat, e, i :| CarriedStart(ops, c) && PassRemovesAt(ops, before, c, e, i, after);
    var b := FunctionStart(ops, before, e, c);
    assert FirstEliminated(ops, before, b, e, i);
  }

  /** A run of VariableElimination: each mask is the previous one after one
      removal step. */
  ghost predicate RemovalTrace(ops: seq<Instruction>, trace: seq<seq<bool>>)
    requires WellFormed(ops)
  {
    && |trace| > 0
    && (forall k :: 0 <= k < |trace| ==> |trace[k]| == |ops|)
    && forall k :: 0 <= k < |trace| - 1 ==> RemovalStep(ops, trace[k], trace[k + 1])
  }

  /** `after` is reached from `before` by removal steps. */
  ghost predicate Eliminated(ops: seq<Instruction>, before: seq<bool>, after: seq<bool>)
    requires WellFormed(ops)
  {
    exists trace :: RemovalTrace(ops, trace) && trace[0] == before && trace[|trace| - 1] == after
  }

  lemma TraceExtend(ops: seq<Instruction>, trace: seq<seq<bool>>, m: seq<bool>)
    requires WellFormed(ops) && RemovalTrace(ops, trace) && |m| == |ops|
    requires RemovalStep(ops, trace[|trace| - 1], m)
    ensures RemovalTrace(ops, trace + [m])
    ensures (trace + [m])[0] == trace[0] && (trace + [m])[|trace|] == m
  {
    var t := trace + [m];
    forall k | 0 <= k < |t| - 1
      ensures RemovalStep(ops, t[k], t[k + 1])
    {
      assert t[k] == trace[k];
      if k < |trace| - 1 {
        assert t[k + 1] == trace[k + 1];
      }
    }
  }

  /** A stretch of a run is a run. */
  lemma TraceSlice(ops: seq<Instruction>, trace: seq<seq<bool>>, lo: int, hi: int)
    requires WellFormed(ops) && RemovalTrace(ops, trace) && 0 <= lo < hi <= |trace|
    ensures RemovalTrace(ops, trace[lo..hi])
  {
    var part := trace[lo..hi];
    forall j | 0 <= j < |part| - 1
      ensures RemovalStep(ops, part[j], part[j + 1])
    {
      assert part[j] == trace[lo + j] && part[j + 1] == trace[lo + j + 1];
    }
  }

  /** Instruction `k`, live in `m`, lies in the walk of the store `i` that
      the pass from `m` to `m'` removes in the function ending at `e`. */
  ghost predicate ClearedBy(ops: seq<Instruction>, m: seq<bool>, carried: nat, e: int, i: int, k: int, m': seq<bool>)
    requires WellFormed(ops)
  {
    && |m| == |ops| && 0 <= k < |ops| && m[k]
    && CarriedStart(ops, carried) && PassRemovesAt(ops, m, carried, e, i, m')
    && WalkStop(ops, i, 1) <= k <= i
  }

  /** Step `j` of the run `trace` clears instruction `k`. */
  ghost predicate ClearedAtStep(ops: seq<Instruction>, trace: seq<seq<bool>>, j: int, carried: nat, e: int, i: int, k: int)
    requires WellFormed(ops)
  {
    0 <= j < |trace| - 1 && ClearedBy(ops, trace[j], carried, e, i, k, trace[j + 1])
  }

  /** Along a run the mask only loses entries, and every entry lost was
      cleared by one of the run's passes: it lay in the walk of the store
      that pass removed, a store of a variable with no live load in its
      function at that point of the run. */
  lemma {:induction false} TraceClears(ops: seq<Instruction>, trace: seq<seq<bool>>, k: int)
    requires WellFormed(ops) && RemovalTrace(ops, trace) && 0 <= k < |ops|
    ensures Within(trace[|trace| - 1], trace[0])
    ensures trace[0][k] && !trace[|trace| - 1][k] ==>
      exists j, carried: nat, e, i :: ClearedAtStep(ops, trace, j, carried, e, i, k)
    decreases |trace|
  {
    if |trace| > 1 {
      var rest := trace[1..];
      TraceSlice(ops, trace, 1, |trace|);
      TraceClears(ops, rest, k);
      assert rest[0] == trace[1] && rest[|rest| - 1] == trace[|trace| - 1];
      assert RemovalStep(ops, trace[0], trace[1]);
      StepClears(ops, trace[0], trace[1], k);
      WithinTransitive(trace[|trace| - 1], trace[1], trace[0]);
      if trace[0][k] && !trace[1][k] {
        var c: nat, e, i :| ClearedBy(ops, trace[0], c, e, i, k, trace[1]);
        assert ClearedAtStep(ops, trace, 0, c, e, i, k);
      } else if trace[0][k] && !trace[|trace| - 1][k] {
        var j, c', e', i' :| ClearedAtStep(ops, rest, j, c', e', i', k);
        ShiftCleared(ops, trace, j, c', e', i', k);
      }
    }
  }

  /** One pass only loses entries, and an entry it loses lies in the walk
      of the store it removes. */
  lemma StepClears(ops: seq<Instruction>, before: seq<bool>, after: seq<bool>, k: int)
    requires WellFormed(ops) && |before| == |ops| && RemovalStep(ops, before, after) && 0 <= k < |ops|
    ensures Within(after, before)
    ensures before[k] && !after[k] ==> exists carried: nat, e, i :: ClearedBy(ops, before, carried, e, i, k, after)
  {
    var c: nat, e, i :| CarriedStart(ops, c) && PassRemovesAt(ops, before, c, e, i, after);
    ClearRangeLoses(before, WalkStop(ops, i, 1), i + 1, k);
    if before[k] && !after[k] {
      assert ClearedBy(ops, before, c, e, i, k, after);
    }
  }

  lemma ClearRangeLoses(s: seq<bool>, lo: int, hi: int, k: int)
    requires 0 <= k < |s|
    ensures Within(ClearRange(s, lo, hi), s)
    ensures s[k] && !ClearRange(s, lo, hi)[k] ==> lo <= k < hi
  {
  }

  /** A step of the run without its first mask is a step of the run. */
  lemma ShiftCleared(ops: seq<Instruction>, trace: seq<seq<bool>>, j: int, carried: nat, e: int, i: int, k: int)
    requires WellFormed(ops) && |trace| > 1 && ClearedAtStep(ops, trace[1..], j, carried, e, i, k)
    ensures ClearedAtStep(ops, trace, j + 1, carried, e, i, k)
  {
    assert trace[1..][j] == trace[j + 1] && trace[1..][j + 1] == trace[j + 2];
  }

  lemma WithinTransitive(u: seq<bool>, t: seq<bool>, s: seq<bool>)
    requires Within(u, t) && Within(t, s)
    ensures Within(u, s)
  {
  }

  /** VariableElimination's result lies within its input, and an
      instruction is missing from it only if some pass of the run removed
      it: the run reaches a mask `m` in which the instruction lies in the
      walk of the first eliminated store of a function, the pass clears
      that walk giving `m'`, and the run goes on from `m'` to the result. */
  lemma EliminatedClearsUseless(ops: seq<Instruction>, before: seq<bool>, after: seq<bool>, k: int)
    requires WellFormed(ops) && Eliminated(ops, before, after) && 0 <= k < |ops|
    ensures |after| == |before| == |ops| && Within(after, before)
    ensures before[k] && !after[k] ==>
      exists m, carried: nat, e, i, m' ::
        Eliminated(ops, before, m) && ClearedBy(ops, m, carried, e, i, k, m') && Eliminated(ops, m', after)
  {
    var trace :| RemovalTrace(ops, trace) && trace[0] == before && trace[|trace| - 1] == after;
    TraceClears(ops, trace, k);
    if before[k] && !after[k] {
      var j, c: nat, e, i :| ClearedAtStep(ops, trace, j, c, e, i, k);
      RunThrough(ops, trace, j);
      assert ClearedBy(ops, trace[j], c, e, i, k, trace[j + 1]);
    }
  }

  /** A run reaches each of its masks, and goes on from each to its end. */
  lemma RunThrough(ops: seq<Instruction>, trace: seq<seq<bool>>, j: int)
    requires WellFormed(ops) && RemovalTrace(ops, trace) && 0 <= j < |trace| - 1
    ensures Eliminated(ops, trace[0], trace[j])
    ensures Eliminated(ops, trace[j + 1], trace[|trace| - 1])
  {
    RunPrefix(ops, trace, j);
    RunSuffix(ops, trace, j + 1);
  }

  lemma RunPrefix(ops: seq<Instruction>, trace: seq<seq<bool>>, j: int)
    requires WellFormed(ops) && RemovalTrace(ops, trace) && 0 <= j < |trace|
    ensures Eliminated(ops, trace[0], trace[j])
  {
    var head := trace[..j + 1];
    TraceSlice(ops, trace, 0, j + 1);
    assert head[0] == trace[0] && head[|head| - 1] == trace[j];
  }

  lemma RunSuffix(ops: seq<Instruction>, trace: seq<seq<bool>>, j: int)
    requires WellFormed(ops) && RemovalTrace(ops, trace) && 0 <= j < |trace|
    ensures Eliminated(ops, trace[j], trace[|trace| - 1])
  {
    var tail := trace[j..];
    TraceSlice(ops, trace, j, |trace|);
    assert tail[0] == trace[j] && tail[|tail| - 1] == trace[|trace| - 1];
  }

  // ---------------------------------------------------------------------
  // The call graph and reachability

  /** The state of FunctionElimination's first loop: the callees recorded
      for each function, and the function whose FUN_BEGIN came last. */
  datatype CallScan = CallScan(calls: map<string, set<string>>, current: string)

  function Callees(g: map<string, set<string>>, f: string): set<string> {
    if f in g then g[f] else {}
  }

  /** The call graph after the first `n` instructions: each live FUN_CALL
      adds an edge from the function of the latest FUN_BEGIN (live or not;
      "" before any) to the callee. */
  function ScanCalls(ops: seq<Instruction>, mask: seq<bool>, n: nat): CallScan
    requires |mask| == |ops| && n <= |ops| && WellFormed(ops)
  {
    if n == 0 then CallScan(map[], "")
    else
      var prev := ScanCalls(ops, mask, n - 1);
      var instr := ops[n - 1];
      if instr.op == FunBegin then prev.(current := instr.operands[0])
      else if instr.op == FunCall && mask[n - 1] then
        prev.(calls := prev.calls[prev.current := Callees(prev.calls, prev.current) + {instr.operands[0]}])
      else prev
  }

  function CallGraph(ops: seq<Instruction>, mask: seq<bool>): map<string, set<string>>
    requires |mask| == |ops| && WellFormed(ops)
  {
    ScanCalls(ops, mask, |ops|).calls
  }

  /** `t` contains the callees of each of its members. */
  ghost predicate Closed(g: map<string, set<string>>, t: set<string>) {
    forall f, c :: f in t && c in Callees(g, f) ==> c in t
  }

  /** `s` is the set of functions reachable from `main`: it contains `main`,
      is closed under calls, and lies inside every such set. */
  ghost predicate ReachableSet(g: map<string, set<string>>, s: set<string>) {
    && "main" in s
    && Closed(g, s)
    && forall t :: "main" in t && Closed(g, t) ==> s <= t
  }

  /** The latest FUN_BEGIN at or before `i`, or -1. */
  function LatestFunBegin(ops: seq<Instruction>, i: int): (b: int)
    requires -1 <= i < |ops|
    ensures -1 <= b <= i
    ensures b >= 0 ==> ops[b].op == FunBegin
    ensures forall k :: b < k <= i ==> ops[k].op != FunBegin
    decreases i + 1
  {
    if i < 0 then -1 else if ops[i].op == FunBegin then i else LatestFunBegin(ops, i - 1)
  }

  /** `isUseful` on entry to iteration `i` of FunctionElimination's last
      loop ... */
  function UsefulBefore(ops: seq<Instruction>, useful: set<string>, i: int): bool
    requires 0 <= i <= |ops| && WellFormed(ops)
    decreases i, 0
  {
    if i == 0 then false
    else if ops[i - 1].op == FunEnd then false
    else UsefulUsed(ops, useful, i - 1)
  }

  /** ... and the value it decides instruction `i` with. */
  function UsefulUsed(ops: seq<Instruction>, useful: set<string>, i: int): bool
    requires 0 <= i < |ops| && WellFormed(ops)
    decreases i, 1
  {
    if ops[i].op == FunBegin then ops[i].operands[0] in useful else UsefulBefore(ops, useful, i)
  }

  /** Instruction `i` lies between the FUN_BEGIN of a function and that
      function's FUN_END, both included. */
  predicate InsideFunction(ops: seq<Instruction>, i: int)
    requires 0 <= i < |ops|
  {
    var b := LatestFunBegin(ops, i);
    b >= 0 && forall k :: b <= k < i ==> ops[k].op != FunEnd
  }

  /** FunctionElimination keeps instruction `i` (if live) exactly when it
      lies inside a function whose name is useful: from the latest
      FUN_BEGIN up to and including the FUN_END that follows. Instructions
      outside every function are dropped. */
  lemma {:induction false} UsefulUsedMeaning(ops: seq<Instruction>, useful: set<string>, i: int)
    requires 0 <= i < |ops| && WellFormed(ops)
    ensures UsefulUsed(ops, useful, i) <==>
      InsideFunction(ops, i) && ops[LatestFunBegin(ops, i)].operands[0] in useful
    decreases i
  {
    if ops[i].op == FunBegin {
      assert LatestFunBegin(ops, i) == i;
    } else if i == 0 {
      assert LatestFunBegin(ops, i) == -1;
    } else {
      assert UsefulUsed(ops, useful, i) == UsefulBefore(ops, useful, i);
      InsideStep(ops, i);
      if ops[i - 1].op != FunEnd {
        UsefulUsedMeaning(ops, useful, i - 1);
      }
    }
  }

  /** Past an instruction other than FUN_BEGIN, the latest FUN_BEGIN stays;
      a FUN_END just passed leaves every function. */
  lemma InsideStep(ops: seq<Instruction>, i: int)
    requires 0 < i < |ops| && ops[i].op != FunBegin
    ensures LatestFunBegin(ops, i) == LatestFunBegin(ops, i - 1)
    ensures ops[i - 1].op == FunEnd ==> !InsideFunction(ops, i)
    ensures ops[i - 1].op != FunEnd ==> (InsideFunction(ops, i) <==> InsideFunction(ops, i - 1))
  {
    var b := LatestFunBegin(ops, i);
    if ops[i - 1].op == FunEnd && b >= 0 {
      assert b < i - 1;
    }
  }

  // ---------------------------------------------------------------------
  // Compaction

  /** The instructions whose mask entry is set, in their original order. */
  function Compact(ops: seq<Instruction>, keep: seq<bool>): (r: seq<Instruction>)
    requires |keep| == |ops|
    ensures |r| == CountTrue(keep)
  {
    if ops == [] then []
    else
      var n := |ops|;
      Compact(ops[..n - 1], keep[..n - 1]) + (if keep[n - 1] then [ops[n - 1]] else [])
  }

  /** The indices whose mask entry is set, in increasing order. */
  function KeptIndices(keep: seq<bool>): (r: seq<nat>)
    ensures |r| == CountTrue(keep)
    ensures forall j :: 0 <= j < |r| ==> r[j] < |keep| && keep[r[j]]
  {
    if keep == [] then []
    else
      var n := |keep|;
      KeptIndices(keep[..n - 1]) + (if keep[n - 1] then [n - 1] else [])
  }

  /** The compacted program is a subsequence of the original: its j-th
      instruction is the original's instruction at the j-th kept index, the
      kept indices are strictly increasing and every kept index appears. */
  lemma CompactIsSubsequence(ops: seq<Instruction>, keep: seq<bool>)
    requires |keep| == |ops|
    ensures var r, idx := Compact(ops, keep), KeptIndices(keep);
      && |r| == |idx|
      && (forall j :: 0 <= j < |r| ==> r[j] == ops[idx[j]])
      && (forall j, k :: 0 <= j < k < |idx| ==> idx[j] < idx[k])
      && (forall i :: 0 <= i < |keep| && keep[i] ==> i in idx)
  {
    CompactPicksKept(ops, keep);
    KeptIndicesIncreasing(keep);
    KeptIndicesComplete(keep);
  }

  lemma {:induction false} CompactPicksKept(ops: seq<Instruction>, keep: seq<bool>)
    requires |keep| == |ops|
    ensures forall j :: 0 <= j < |Compact(ops, keep)| ==> Compact(ops, keep)[j] == ops[KeptIndices(keep)[j]]
    decreases |ops|
  {
    if ops != [] {
      var n := |ops|;
      CompactPicksKept(ops[..n - 1], keep[..n - 1]);
      var idx0 := KeptIndices(keep[..n - 1]);
      assert forall j :: 0 <= j < |idx0| ==> idx0[j] < n - 1;
    }
  }

  lemma {:induction false} KeptIndicesIncreasing(keep: seq<bool>)
    ensures forall j, k :: 0 <= j < k < |KeptIndices(keep)| ==> KeptIndices(keep)[j] < KeptIndices(keep)[k]
    decreases |keep|
  {
    if keep != [] {
      var n := |keep|;
      KeptIndicesIncreasing(keep[..n - 1]);
      var idx0 := KeptIndices(keep[..n - 1]);
      assert forall j :: 0 <= j < |idx0| ==> idx0[j] < n - 1;
    }
  }

  lemma {:induction false} KeptIndicesComplete(keep: seq<bool>)
    ensures forall i :: 0 <= i < |keep| && keep[i] ==> i in KeptIndices(keep)
    decreases |keep|
  {
    if keep != [] {
      var n := |keep|;
      KeptIndicesComplete(keep[..n - 1]);
      forall i | 0 <= i < n && keep[i]
        ensures i in KeptIndices(keep)
      {
        if i < n - 1 {
          assert keep[..n - 1][i];
        }
      }
    }
  }

  // ---------------------------------------------------------------------
  // The whole optimizer

  /** `after` is what FunctionElimination leaves of `before`: an instruction
      stays exactly when it is set in `before` and lies inside a function
      reachable from `main` through the calls live in `before`. */
  ghost predicate FunctionsEliminated(ops: seq<Instruction>, before: seq<bool>, after: seq<bool>)
    requires |before| == |ops| && WellFormed(ops)
  {
    && |after| == |ops|
    && exists useful :: ReachableSet(CallGraph(ops, before), useful) &&
         forall i :: 0 <= i < |ops| ==> after[i] == (before[i] && UsefulUsed(ops, useful, i))
  }

  /** FunctionElimination keeps a live instruction exactly when it lies
      inside a function whose name is reachable from `main`. */
  lemma FunctionsEliminatedMeaning(ops: seq<Instruction>, before: seq<bool>, after: seq<bool>, i: int)
    requires |before| == |ops| && WellFormed(ops) && FunctionsEliminated(ops, before, after) && 0 <= i < |ops|
    ensures after[i] <==>
      before[i] && InsideFunction(ops, i) &&
      exists useful :: ReachableSet(CallGraph(ops, before), useful) && ops[LatestFunBegin(ops, i)].operands[0] in useful
  {
    var useful :| ReachableSet(CallGraph(ops, before), useful) &&
      forall j :: 0 <= j < |ops| ==> after[j] == (before[j] && UsefulUsed(ops, useful, j));
    UsefulUsedMeaning(ops, useful, i);
    if InsideFunction(ops, i) {
      forall other | ReachableSet(CallGraph(ops, before), other)
        ensures other == useful
      {
        assert other <= useful && useful <= other;
      }
    }
  }

  /** After FunctionElimination only instructions inside functions are
      live, so the walk bound on stores inside functions covers every live
      store. */
  lemma FunctionsEliminatedWalks(ops: seq<Instruction>, before: seq<bool>, after: seq<bool>)
    requires |before| == |ops| && WellFormed(ops) && FunctionWalksStop(ops)
    requires FunctionsEliminated(ops, before, after)
    ensures LiveWalksStop(ops, after, 0, |ops|)
  {
    forall i | 0 <= i < |ops| && after[i] && IsStore(ops[i].op)
      ensures WalkStop(ops, i, 1) > 0
    {
      FunctionsEliminatedMeaning(ops, before, after, i);
    }
  }

  /** The mask the optimizer starts from: every instruction kept. */
  function AllKept(n: nat): seq<bool> {
    seq(n, _ => true)
  }

  /** The mask the optimizer compacts with: the functions unreachable from
      `main` dropped from the full mask, then useless stores removed until
      none is left, then the functions that became unreachable dropped. */
  ghost predicate DeadCodeKeeps(ops: seq<Instruction>, keep: seq<bool>)
    requires WellFormed(ops)
  {
    exists m1, m2 ::
      && |m1| == |ops| && |m2| == |ops|
      && FunctionsEliminated(ops, AllKept(|ops|), m1)
      && Eliminated(ops, m1, m2) && NoUselessVariables(ops, m2)
      && FunctionsEliminated(ops, m2, keep)
  }

  /** Every instruction the optimizer keeps lies inside a function, and the
      function containing it is reachable from `main` in the call graph of
      the mask left by variable elimination. */
  lemma DeadCodeKeepsInside(ops: seq<Instruction>, keep: seq<bool>)
    requires WellFormed(ops) && DeadCodeKeeps(ops, keep)
    ensures |keep| == |ops|
    ensures forall i :: 0 <= i < |ops| && keep[i] ==> InsideFunction(ops, i)
  {
    var m1, m2 :| |m1| == |ops| && |m2| == |ops|
      && FunctionsEliminated(ops, AllKept(|ops|), m1)
      && Eliminated(ops, m1, m2) && NoUselessVariables(ops, m2)
      && FunctionsEliminated(ops, m2, keep);
    var useful :| ReachableSet(CallGraph(ops, m2), useful) &&
      forall i :: 0 <= i < |ops| ==> keep[i] == (m2[i] && UsefulUsed(ops, useful, i));
    forall i | 0 <= i < |ops| && keep[i]
      ensures InsideFunction(ops, i)
    {
      UsefulUsedMeaning(ops, useful, i);
    }
  }
}
