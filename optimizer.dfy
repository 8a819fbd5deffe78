/** The bytecode optimizer: dead-code elimination over a liveness mask.
    Unreachable functions are dropped, then stores to variables that are
    never loaded (together with the code that computes the stored value),
    then functions that became unreachable; the surviving instructions are
    compacted in order. */
module Optimizer {
  import opened Bytecode
  import opened OptimizerSpec

  /** Walks back from the store at `startIndex`, clearing the mask of every
      instruction until the values the store consumes are accounted for.
      Returns whether any of those instructions was still live. */
  method VariableStoringElimination(ops: seq<Instruction>, mask: array<bool>, startIndex: nat)
    returns (isEliminated: bool)
    requires mask.Length == |ops| && startIndex < |ops|
    requires WalkStop(ops, startIndex, 1) > 0
    modifies mask
    ensures mask[..] == ClearRange(old(mask[..]), WalkStop(ops, startIndex, 1), startIndex + 1)
    ensures isEliminated <==> exists k :: WalkStop(ops, startIndex, 1) <= k <= startIndex && old(mask[k])
  {
    ghost var m0 := mask[..];
    ghost var stop := WalkStop(ops, startIndex, 1);
    isEliminated := false;
    var opIndex: int := startIndex;
    var operation := ops[opIndex].op;
    var remainingCount: nat := 1;
    while remainingCount > 0
      invariant stop - 1 <= opIndex <= startIndex
      invariant remainingCount > 0 ==>
        0 <= opIndex && operation == ops[opIndex].op && WalkStop(ops, opIndex, remainingCount) == stop
      invariant remainingCount == 0 ==> opIndex == stop - 1
      invariant mask[..] == ClearRange(m0, opIndex + 1, startIndex + 1)
      invariant isEliminated <==> exists k :: opIndex < k <= startIndex && m0[k]
      decreases opIndex + 1
    {
      remainingCount := remainingCount - 1;
      remainingCount := remainingCount + Usage(operation);
      if mask[opIndex] {
        isEliminated := true;
        mask[opIndex] := false;
      }
      assert mask[..] == ClearRange(m0, opIndex, startIndex + 1);
      opIndex := opIndex - 1;
      operation := ops[opIndex].op;
    }
  }

  /** Whether `v` has a live load in `ops[begin..end]` (the second loop of
      VariableEliminationInsideFunction, for one variable). */
  method HasLiveLoad(ops: seq<Instruction>, mask: array<bool>, begin: nat, end: nat, v: string)
    returns (found: bool)
    requires mask.Length == |ops| && end <= |ops| && WellFormed(ops)
    ensures found <==> exists i :: begin <= i < end && LiveLoad(ops, mask[..], i, v)
  {
    var opIndex := begin;
    while opIndex < end
      invariant begin <= opIndex && (begin <= end ==> opIndex <= end)
      invariant !(exists i :: begin <= i < opIndex && LiveLoad(ops, mask[..], i, v))
    {
      if IsLoad(ops[opIndex].op) && ops[opIndex].operands[0] == v && mask[opIndex] {
        assert LiveLoad(ops, mask[..], opIndex, v);
        return true;
      }
      opIndex := opIndex + 1;
    }
    return false;
  }

  /** Removes the first live store of the useless variable that comes first
      in name order, with the code computing its value, and reports whether
      there was one. The source collects the variables with a live store in
      a `std::map`, marks those with a live load, and in key order calls
      VariableStoringElimination on the live stores of the first remaining
      one; that call always clears the store itself, so `||` skips every
      later call. This loop finds the same store in one scan. */
  method VariableEliminationInsideFunction(ops: seq<Instruction>, mask: array<bool>, begin: nat, end: nat)
    returns (isEliminated: bool)
    requires mask.Length == |ops| && end <= |ops| && WellFormed(ops)
    requires LiveWalksStop(ops, mask[..], begin, end)
    modifies mask
    ensures !isEliminated <==> forall v :: !Useless(ops, old(mask[..]), begin, end, v)
    ensures !isEliminated ==> mask[..] == old(mask[..])
    ensures isEliminated ==>
      exists i :: FirstEliminated(ops, old(mask[..]), begin, end, i) &&
                  mask[..] == ClearRange(old(mask[..]), WalkStop(ops, i, 1), i + 1)
    ensures Within(mask[..], old(mask[..]))
    ensures isEliminated ==> CountTrue(mask[..]) < CountTrue(old(mask[..]))
  {
    ghost var m0 := mask[..];
    var found, bestIndex := FindFirstEliminated(ops, mask, begin, end);
    assert mask[..] == m0;
    if found {
      assert Useless(ops, m0, begin, end, ops[bestIndex].operands[0]);
      isEliminated := VariableStoringElimination(ops, mask, bestIndex);
      assert WalkStop(ops, bestIndex, 1) <= bestIndex && m0[bestIndex];
      assert isEliminated && !mask[bestIndex];
      CountTrueWithin(mask[..], m0);
    } else {
      isEliminated := false;
    }
  }

  /** The scan behind VariableEliminationInsideFunction: the first live
      store, in `ops[begin..end]`, of the useless variable first in name
      order, if any variable is useless there. */
  method FindFirstEliminated(ops: seq<Instruction>, mask: array<bool>, begin: nat, end: nat)
    returns (found: bool, bestIndex: nat)
    requires mask.Length == |ops| && end <= |ops| && WellFormed(ops)
    ensures found ==> FirstEliminated(ops, mask[..], begin, end, bestIndex)
    ensures !found <==> forall v :: !Useless(ops, mask[..], begin, end, v)
  {
    ghost var m0 := mask[..];
    found := false;
    var best := "";
    bestIndex := begin;
    var opIndex := begin;
    while opIndex < end
      invariant begin <= opIndex && (begin <= end ==> opIndex <= end)
      invariant found ==> Candidate(ops, m0, begin, end, bestIndex, best) && bestIndex < opIndex
      invariant forall j :: begin <= j < opIndex && UselessStore(ops, m0, begin, end, j) ==>
        found && (ops[j].operands[0] == best || LexLess(best, ops[j].operands[0]))
    {
      if IsStore(ops[opIndex].op) && mask[opIndex] {
        var v := ops[opIndex].operands[0];
        if !found || LexLess(v, best) {
          var loaded := HasLiveLoad(ops, mask, begin, end, v);
          assert mask[..] == m0;
          if !loaded {
            assert LiveStore(ops, m0, opIndex, v);
            assert Useless(ops, m0, begin, end, v);
            NewBest(ops, m0, begin, end, opIndex, found, best, bestIndex);
            found, best, bestIndex := true, v, opIndex;
          }
        } else if v != best {
          LexLessTotal(v, best);
        }
      }
      opIndex := opIndex + 1;
    }
    if found {
      BestIsFirst(ops, m0, begin, end, bestIndex, best);
    } else {
      NoneUseless(ops, m0, begin, end);
    }
  }

  /** A candidate no live useless store beats is the first eliminated. */
  lemma BestIsFirst(ops: seq<Instruction>, mask: seq<bool>, begin: nat, end: nat, bestIndex: nat, best: string)
    requires |mask| == |ops| && end <= |ops| && WellFormed(ops)
    requires Candidate(ops, mask, begin, end, bestIndex, best)
    requires forall j :: begin <= j < end && UselessStore(ops, mask, begin, end, j) ==>
      ops[j].operands[0] == best || LexLess(best, ops[j].operands[0])
    ensures FirstEliminated(ops, mask, begin, end, bestIndex)
  {
    forall w | Useless(ops, mask, begin, end, w)
      ensures w == best || LexLess(best, w)
    {
      var j :| begin <= j < end && LiveStore(ops, mask, j, w);
      assert UselessStore(ops, mask, begin, end, j);
    }
  }

  /** With no live useless store in the range, no variable is useless. */
  lemma NoneUseless(ops: seq<Instruction>, mask: seq<bool>, begin: nat, end: nat)
    requires |mask| == |ops| && end <= |ops| && WellFormed(ops)
    requires forall j :: begin <= j < end ==> !UselessStore(ops, mask, begin, end, j)
    ensures forall v :: !Useless(ops, mask, begin, end, v)
  {
    forall v
      ensures !Useless(ops, mask, begin, end, v)
    {
      if exists j :: begin <= j < end && LiveStore(ops, mask, j, v) {
        var j :| begin <= j < end && LiveStore(ops, mask, j, v);
        assert !UselessStore(ops, mask, begin, end, j);
      }
    }
  }

  /** The instruction at `j` is a live store of a useless variable. */
  ghost predicate UselessStore(ops: seq<Instruction>, mask: seq<bool>, begin: int, end: int, j: int)
    requires |mask| == |ops| && WellFormed(ops)
  {
    0 <= j < |ops| && IsStore(ops[j].op) && LiveStore(ops, mask, j, ops[j].operands[0]) &&
    Useless(ops, mask, begin, end, ops[j].operands[0])
  }

  /** `bestIndex` is a live store of the useless variable `best` and the
      first one in the range. */
  ghost predicate Candidate(ops: seq<Instruction>, mask: seq<bool>, begin: int, end: int, bestIndex: int, best: string)
    requires |mask| == |ops| && WellFormed(ops)
  {
    && begin <= bestIndex < end
    && LiveStore(ops, mask, bestIndex, best)
    && Useless(ops, mask, begin, end, best)
    && forall j :: begin <= j < bestIndex ==> !LiveStore(ops, mask, j, best)
  }

  /** A useless variable found at `i` that comes before every useless
      variable seen so far takes over as the candidate: its store at `i` is
      its first, and it stays first in name order. */
  lemma NewBest(ops: seq<Instruction>, mask: seq<bool>, begin: int, end: int, i: int,
                found: bool, best: string, bestIndex: int)
    requires |mask| == |ops| && WellFormed(ops) && begin <= i < end
    requires UselessStore(ops, mask, begin, end, i)
    requires !found || LexLess(ops[i].operands[0], best)
    requires forall j :: begin <= j < i && UselessStore(ops, mask, begin, end, j) ==>
      found && (ops[j].operands[0] == best || LexLess(best, ops[j].operands[0]))
    ensures Candidate(ops, mask, begin, end, i, ops[i].operands[0])
    ensures forall j :: begin <= j <= i && UselessStore(ops, mask, begin, end, j) ==>
      ops[j].operands[0] == ops[i].operands[0] || LexLess(ops[i].operands[0], ops[j].operands[0])
  {
    var v := ops[i].operands[0];
    forall j | begin <= j < i
      ensures !LiveStore(ops, mask, j, v)
    {
      if LiveStore(ops, mask, j, v) {
        assert UselessStore(ops, mask, begin, end, j);
        if v == best {
          LexLessIrreflexive(v);
        } else {
          LexLessAsymmetric(v, best);
        }
      }
    }
    forall j | begin <= j < i && UselessStore(ops, mask, begin, end, j)
      ensures ops[j].operands[0] == v || LexLess(v, ops[j].operands[0])
    {
      if ops[j].operands[0] != best {
        LexLessTransitive(v, best, ops[j].operands[0]);
      }
    }
  }

  /** Repeats passes over the functions until a pass removes nothing. The
      index of the last FUN_BEGIN carries over from one pass to the next. */
  method VariableElimination(ops: seq<Instruction>, mask: array<bool>)
    requires mask.Length == |ops| && WellFormed(ops) && LiveWalksStop(ops, mask[..], 0, |ops|)
    modifies mask
    ensures Within(mask[..], old(mask[..]))
    ensures Eliminated(ops, old(mask[..]), mask[..])
    ensures NoUselessVariables(ops, mask[..])
  {
    var funcBeginIndex: nat := 0;
    var isEliminated := true;
    ghost var trace := [mask[..]];
    while isEliminated
      invariant Within(mask[..], old(mask[..]))
      invariant |ops| > 0 ==> funcBeginIndex < |ops|
      invariant CarriedStart(ops, funcBeginIndex) && LiveWalksStop(ops, mask[..], 0, |ops|)
      invariant !isEliminated ==> NoUselessVariables(ops, mask[..])
      invariant TraceFrom(ops, trace, old(mask[..]), mask[..])
      decreases CountTrue(mask[..]) + (if isEliminated then 1 else 0)
    {
      ghost var passStart := mask[..];
      ghost var carried := funcBeginIndex;
      isEliminated, funcBeginIndex := EliminationPass(ops, mask, funcBeginIndex);
      CountTrueWithin(mask[..], passStart);
      LiveWalksStopWithin(ops, mask[..], passStart, 0, |ops|);
      WithinTransitive(mask[..], passStart, old(mask[..]));
      if isEliminated {
        PassExtends(ops, trace, old(mask[..]), passStart, carried, mask[..]);
        trace := trace + [mask[..]];
      }
    }
  }

  /** `trace` is a trace of removal steps from `first` to `last`. */
  ghost predicate TraceFrom(ops: seq<Instruction>, trace: seq<seq<bool>>, first: seq<bool>, last: seq<bool>)
    requires WellFormed(ops)
  {
    RemovalTrace(ops, trace) && trace[0] == first && trace[|trace| - 1] == last
  }

  /** A pass that removes something extends the trace by its result. */
  lemma PassExtends(ops: seq<Instruction>, trace: seq<seq<bool>>, first: seq<bool>, before: seq<bool>, carried: nat, after: seq<bool>)
    requires WellFormed(ops) && |before| == |ops| && |after| == |ops|
    requires CarriedStart(ops, carried)
    requires TraceFrom(ops, trace, first, before) && PassRemoval(ops, before, carried, after)
    ensures TraceFrom(ops, trace + [after], first, after)
  {
    PassRemovalStep(ops, before, carried, after);
    TraceExtend(ops, trace, after);
  }


  /** One pass of VariableElimination's outer loop. It offers each live
      function, delimited by a live FUN_END and the last live FUN_BEGIN
      before it, to VariableEliminationInsideFunction. Once one of them
      removed something it stops offering, as the `||` does. A pass that
      removes nothing has found no useless variable in any function. */
  method EliminationPass(ops: seq<Instruction>, mask: array<bool>, funcBeginIndex0: nat)
    returns (isEliminated: bool, funcBeginIndex: nat)
    requires mask.Length == |ops| && WellFormed(ops) && LiveWalksStop(ops, mask[..], 0, |ops|)
    requires |ops| > 0 ==> funcBeginIndex0 < |ops|
    requires CarriedStart(ops, funcBeginIndex0)
    modifies mask
    ensures |ops| > 0 ==> funcBeginIndex < |ops|
    ensures CarriedStart(ops, funcBeginIndex)
    ensures Within(mask[..], old(mask[..]))
    ensures isEliminated ==> CountTrue(mask[..]) < CountTrue(old(mask[..]))
    ensures isEliminated ==> PassRemoval(ops, old(mask[..]), funcBeginIndex0, mask[..])
    ensures !isEliminated ==> mask[..] == old(mask[..]) && NoUselessVariables(ops, mask[..])
  {
    isEliminated := false;
    funcBeginIndex := funcBeginIndex0;
    ghost var passStart := mask[..];
    var opIndex := 0;
    while opIndex < |ops|
      invariant 0 <= opIndex <= |ops|
      invariant PassState(ops, mask[..], passStart, funcBeginIndex0, opIndex, funcBeginIndex, isEliminated)
    {
      funcBeginIndex, isEliminated := PassTurn(ops, mask, passStart, funcBeginIndex0, opIndex, funcBeginIndex, isEliminated);
      opIndex := opIndex + 1;
    }
  }

  /** EliminationPass's loop state after the instructions before `opIndex`:
      the function start it would use, and, until the pass removes
      something, no change to the mask and no useless variable in the
      functions already passed. */
  ghost predicate PassState(ops: seq<Instruction>, mask: seq<bool>, passStart: seq<bool>, funcBeginIndex0: nat,
                            opIndex: int, funcBeginIndex: nat, isEliminated: bool)
    requires |mask| == |ops| && |passStart| == |ops| && WellFormed(ops) && 0 <= opIndex <= |ops|
  {
    && (|ops| > 0 ==> funcBeginIndex < |ops|)
    && CarriedStart(ops, funcBeginIndex)
    && Within(mask, passStart)
    && (isEliminated ==> CountTrue(mask) < CountTrue(passStart))
    && (isEliminated ==> PassRemoval(ops, passStart, funcBeginIndex0, mask))
    && (!isEliminated ==> mask == passStart)
    && (!isEliminated ==> funcBeginIndex == FunctionStart(ops, passStart, opIndex, funcBeginIndex0))
    && (!isEliminated ==> CleanBefore(ops, passStart, opIndex))
  }

  /** One turn of EliminationPass's loop, at instruction `opIndex`. */
  method PassTurn(ops: seq<Instruction>, mask: array<bool>, ghost passStart: seq<bool>, funcBeginIndex0: nat,
                  opIndex: nat, current: nat, removed: bool)
    returns (funcBeginIndex: nat, isEliminated: bool)
    requires mask.Length == |ops| && |passStart| == |ops| && WellFormed(ops) && opIndex < |ops|
    requires LiveWalksStop(ops, passStart, 0, |ops|) && CarriedStart(ops, funcBeginIndex0)
    requires PassState(ops, mask[..], passStart, funcBeginIndex0, opIndex, current, removed)
    modifies mask
    ensures PassState(ops, mask[..], passStart, funcBeginIndex0, opIndex + 1, funcBeginIndex, isEliminated)
  {
    funcBeginIndex, isEliminated := current, removed;
    if ops[opIndex].op == FunBegin && mask[opIndex] {
      funcBeginIndex := opIndex;
    }
    if ops[opIndex].op == FunEnd && mask[opIndex] {
      if mask[funcBeginIndex] && !isEliminated {
        LiveWalksStopWithin(ops, mask[..], passStart, funcBeginIndex, opIndex);
        isEliminated := VariableEliminationInsideFunction(ops, mask, funcBeginIndex, opIndex);
        if isEliminated {
          RemovalWitness(ops, passStart, funcBeginIndex0, opIndex, mask[..]);
        }
      }
    }
    if !isEliminated {
      CleanBeforeStep(ops, passStart, opIndex);
    }
  }

  /** The removal VariableEliminationInsideFunction made in the function
      ending at `e` is the pass's removal. */
  lemma RemovalWitness(ops: seq<Instruction>, before: seq<bool>, carried: nat, e: nat, after: seq<bool>)
    requires |before| == |ops| && WellFormed(ops) && e < |ops| && before[e] && ops[e].op == FunEnd
    requires CleanBefore(ops, before, e)
    requires 0 <= FunctionStart(ops, before, e, carried) < |ops| && before[FunctionStart(ops, before, e, carried)]
    requires exists i :: FirstEliminated(ops, before, FunctionStart(ops, before, e, carried), e, i) &&
                         after == ClearRange(before, WalkStop(ops, i, 1), i + 1)
    ensures PassRemoval(ops, before, carried, after)
  {
    var i :| FirstEliminated(ops, before, FunctionStart(ops, before, e, carried), e, i) &&
             after == ClearRange(before, WalkStop(ops, i, 1), i + 1);
    assert PassRemovesAt(ops, before, carried, e, i, after);
  }

  lemma CleanBeforeStep(ops: seq<Instruction>, mask: seq<bool>, k: int)
    requires |mask| == |ops| && WellFormed(ops) && 0 <= k < |ops|
    requires CleanBefore(ops, mask, k)
    requires mask[k] && ops[k].op == FunEnd && LastLiveFunBegin(ops, mask, k) >= 0 ==>
      forall v :: !Useless(ops, mask, LastLiveFunBegin(ops, mask, k), k, v)
    ensures CleanBefore(ops, mask, k + 1)
  {
  }

  /** The names whose usefulness counter is non-zero. */
  function Visited(usefulness: map<string, int>): set<string> {
    set n | n in usefulness && usefulness[n] != 0
  }

  /** How many entries of `q` are in `s`. */
  function CountIn(q: seq<string>, s: set<string>): nat {
    if q == [] then 0 else CountIn(q[..|q| - 1], s) + (if q[|q| - 1] in s then 1 else 0)
  }

  lemma {:induction false} CountInTail(q: seq<string>, s: set<string>)
    requires q != []
    ensures CountIn(q, s) == CountIn(q[1..], s) + (if q[0] in s then 1 else 0)
    decreases |q|
  {
    if |q| > 1 {
      CountInTail(q[..|q| - 1], s);
      assert q[..|q| - 1][1..] == q[1..][..|q[1..]| - 1];
    }
  }

  /** Drops every instruction that does not lie inside a function reachable
      from `main` through the live calls, and returns (as a ghost) the set of
      reachable functions the breadth-first search found. */
  method FunctionElimination(ops: seq<Instruction>, mask: array<bool>) returns (ghost useful: set<string>)
    requires mask.Length == |ops| && WellFormed(ops)
    modifies mask
    ensures ReachableSet(CallGraph(ops, old(mask[..])), useful)
    ensures forall i :: 0 <= i < |ops| ==> mask[i] == (old(mask[i]) && UsefulUsed(ops, useful, i))
  {
    var allCalls, usefulness := CollectCalls(ops, mask);
    usefulness := Search(allCalls, usefulness);
    useful := Visited(usefulness);
    DropUseless(ops, mask, usefulness);
  }

  /** FunctionElimination's first loop: the callees of each function over
      its live FUN_CALLs, and a zero counter for every function declared. */
  method CollectCalls(ops: seq<Instruction>, mask: array<bool>)
    returns (allCalls: map<string, set<string>>, usefulness: map<string, int>)
    requires mask.Length == |ops| && WellFormed(ops)
    ensures allCalls == CallGraph(ops, mask[..])
    ensures forall n :: n in usefulness ==> usefulness[n] == 0
  {
    var currentFunction := "";
    allCalls, usefulness := map[], map[];
    var opIndex := 0;
    while opIndex < |ops|
      invariant 0 <= opIndex <= |ops|
      invariant CallScan(allCalls, currentFunction) == ScanCalls(ops, mask[..], opIndex)
      invariant forall n :: n in usefulness ==> usefulness[n] == 0
    {
      if ops[opIndex].op == FunBegin {
        currentFunction := ops[opIndex].operands[0];
        usefulness := usefulness[currentFunction := 0];
      } else if ops[opIndex].op == FunCall && mask[opIndex] {
        var functionName := ops[opIndex].operands[0];
        allCalls := allCalls[currentFunction := Callees(allCalls, currentFunction) + {functionName}];
      }
      opIndex := opIndex + 1;
    }
  }

  /** FunctionElimination's last loop: clears every instruction that does
      not lie inside a function whose counter is non-zero. */
  method DropUseless(ops: seq<Instruction>, mask: array<bool>, usefulness: map<string, int>)
    requires mask.Length == |ops| && WellFormed(ops)
    modifies mask
    ensures forall i :: 0 <= i < |ops| ==> mask[i] == (old(mask[i]) && UsefulUsed(ops, Visited(usefulness), i))
  {
    ghost var m0 := mask[..];
    ghost var useful := Visited(usefulness);
    var currentFunction := "";
    var isUseful := false;
    var opIndex := 0;
    while opIndex < |ops|
      invariant 0 <= opIndex <= |ops|
      invariant isUseful == UsefulBefore(ops, useful, opIndex)
      invariant forall k :: 0 <= k < opIndex ==> mask[k] == (m0[k] && UsefulUsed(ops, useful, k))
      invariant forall k :: opIndex <= k < |ops| ==> mask[k] == m0[k]
    {
      if ops[opIndex].op == FunBegin {
        currentFunction := ops[opIndex].operands[0];
        isUseful := currentFunction in usefulness && usefulness[currentFunction] != 0;
      }
      if !isUseful {
        mask[opIndex] := false;
      }
      if ops[opIndex].op == FunEnd {
        isUseful := false;
      }
      opIndex := opIndex + 1;
    }
  }

  /** The breadth-first search from `main`: each dequeued function's counter
      goes up by one and its callees whose counter is still zero are
      enqueued. The functions whose counter ends non-zero are those
      reachable from `main`. */
  method Search(allCalls: map<string, set<string>>, usefulness0: map<string, int>)
    returns (usefulness: map<string, int>)
    requires forall n :: n in usefulness0 ==> usefulness0[n] == 0
    ensures ReachableSet(allCalls, Visited(usefulness))
  {
    usefulness := usefulness0;
    ghost var names := {"main"} + set f, c | f in allCalls && c in allCalls[f] :: c;
    var queue := ["main"];
    assert Visited(usefulness) == {};
    SearchStart(allCalls, names);
    while queue != []
      invariant forall n :: n in usefulness ==> usefulness[n] >= 0
      invariant SearchInvariant(allCalls, names, Visited(usefulness), queue)
      decreases |names - Visited(usefulness)|, CountIn(queue, Visited(usefulness))
    {
      ghost var v0 := Visited(usefulness);
      ghost var q0 := queue;
      var currentFunction := queue[0];
      ghost var u0 := usefulness;
      usefulness := usefulness[currentFunction :=
        (if currentFunction in usefulness then usefulness[currentFunction] else 0) + 1];
      queue := queue[1..];
      VisitedIncrement(u0, currentFunction);
      usefulness, queue := Enqueue(allCalls, currentFunction, usefulness, queue);
      SearchStep(allCalls, names, v0, q0, queue);
    }
    SearchDone(allCalls, names, Visited(usefulness));
  }

  /** Bumping a non-negative counter marks its name visited. */
  lemma VisitedIncrement(u: map<string, int>, f: string)
    requires forall n :: n in u ==> u[n] >= 0
    ensures var u' := u[f := (if f in u then u[f] else 0) + 1];
      (forall n :: n in u' ==> u'[n] >= 0) && Visited(u') == Visited(u) + {f}
  {
  }

  /** Every callee, and `main`, is one of `names`. */
  ghost predicate Names(g: map<string, set<string>>, names: set<string>) {
    "main" in names && forall f, c :: c in Callees(g, f) ==> c in names
  }

  /** What the search keeps true: visited and queued names are callees or
      `main`; they lie in every call-closed set containing `main`; `main` is
      visited or queued; every callee of a visited function is visited or
      queued. */
  ghost predicate SearchInvariant(g: map<string, set<string>>, names: set<string>, visited: set<string>, queue: seq<string>) {
    && Names(g, names)
    && visited <= names
    && (forall k :: 0 <= k < |queue| ==> queue[k] in names)
    && InClosedSets(g, visited, queue)
    && ("main" in visited || "main" in queue)
    && Frontier(g, visited, queue)
  }

  /** Visited and queued names lie in every call-closed set containing `main`. */
  ghost predicate InClosedSets(g: map<string, set<string>>, visited: set<string>, queue: seq<string>) {
    forall t :: "main" in t && Closed(g, t) ==> visited <= t && forall k :: 0 <= k < |queue| ==> queue[k] in t
  }

  /** Every callee of a visited function is visited or queued. */
  ghost predicate Frontier(g: map<string, set<string>>, visited: set<string>, queue: seq<string>) {
    forall v, c :: v in visited && c in Callees(g, v) ==> c in visited || c in queue
  }

  lemma SearchStart(g: map<string, set<string>>, names: set<string>)
    requires names == {"main"} + set f, c | f in g && c in g[f] :: c
    ensures SearchInvariant(g, names, {}, ["main"])
  {
    forall f, c | c in Callees(g, f)
      ensures c in names
    {
      assert f in g;
    }
  }

  /** When the queue is empty the visited set is the reachable set. */
  lemma SearchDone(g: map<string, set<string>>, names: set<string>, visited: set<string>)
    requires SearchInvariant(g, names, visited, [])
    ensures ReachableSet(g, visited)
  {
  }

  /** One round of the search keeps the invariant and lowers the measure:
      either a new function is visited, or a visited one leaves the queue
      and only unvisited ones join it. */
  lemma SearchStep(g: map<string, set<string>>, names: set<string>, v0: set<string>, q0: seq<string>, queue: seq<string>)
    requires SearchInvariant(g, names, v0, q0) && q0 != []
    requires |q0| - 1 <= |queue| && queue[..|q0| - 1] == q0[1..]
    requires forall k :: |q0| - 1 <= k < |queue| ==> queue[k] !in v0 + {q0[0]} && queue[k] in Callees(g, q0[0])
    requires forall c :: c in Callees(g, q0[0]) ==> c in v0 + {q0[0]} || c in queue
    requires CountIn(queue, v0 + {q0[0]}) == CountIn(q0[1..], v0 + {q0[0]})
    ensures SearchInvariant(g, names, v0 + {q0[0]}, queue)
    ensures |names - (v0 + {q0[0]})| < |names - v0| ||
      (|names - (v0 + {q0[0]})| == |names - v0| && CountIn(queue, v0 + {q0[0]}) < CountIn(q0, v0))
  {
    var f := q0[0];
    var v1 := v0 + {f};
    QueueOrigin(q0, queue, Callees(g, f));
    StepClosed(g, v0, q0, queue);
    StepFrontier(g, v0, q0, queue);
    assert f in names;
    if f in v0 {
      assert v1 == v0;
      CountInTail(q0, v0);
    } else {
      assert names - v1 == (names - v0) - {f};
    }
  }

  /** After a round, every queued name was queued before or is a callee of
      the dequeued function, and everything queued before except the head
      is still queued. */
  lemma QueueOrigin(q0: seq<string>, queue: seq<string>, callees: set<string>)
    requires q0 != [] && |q0| - 1 <= |queue| && queue[..|q0| - 1] == q0[1..]
    requires forall k :: |q0| - 1 <= k < |queue| ==> queue[k] in callees
    ensures forall k :: 0 <= k < |queue| ==> queue[k] in q0[1..] || queue[k] in callees
    ensures forall x :: x in q0[1..] ==> x in queue
  {
    forall k | 0 <= k < |queue|
      ensures queue[k] in q0[1..] || queue[k] in callees
    {
      if k < |q0| - 1 {
        assert queue[k] == queue[..|q0| - 1][k];
      }
    }
    forall x | x in q0[1..]
      ensures x in queue
    {
      var k :| 0 <= k < |q0[1..]| && q0[1..][k] == x;
      assert queue[..|q0| - 1][k] == x;
    }
  }

  lemma StepClosed(g: map<string, set<string>>, v0: set<string>, q0: seq<string>, queue: seq<string>)
    requires InClosedSets(g, v0, q0) && q0 != []
    requires forall k :: 0 <= k < |queue| ==> queue[k] in q0[1..] || queue[k] in Callees(g, q0[0])
    ensures InClosedSets(g, v0 + {q0[0]}, queue)
  {
    forall t | "main" in t && Closed(g, t)
      ensures v0 + {q0[0]} <= t && forall k :: 0 <= k < |queue| ==> queue[k] in t
    {
      assert q0[0] in t;
      forall k | 0 <= k < |queue|
        ensures queue[k] in t
      {
        if queue[k] in q0[1..] {
          var j :| 0 <= j < |q0[1..]| && q0[1..][j] == queue[k];
          assert q0[j + 1] in t;
        }
      }
    }
  }

  lemma StepFrontier(g: map<string, set<string>>, v0: set<string>, q0: seq<string>, queue: seq<string>)
    requires Frontier(g, v0, q0) && q0 != []
    requires forall x :: x in q0[1..] ==> x in queue
    requires forall c :: c in Callees(g, q0[0]) ==> c in v0 + {q0[0]} || c in queue
    ensures Frontier(g, v0 + {q0[0]}, queue)
  {
    forall v, c | v in v0 + {q0[0]} && c in Callees(g, v)
      ensures c in v0 + {q0[0]} || c in queue
    {
      if v in v0 && c !in v0 && c != q0[0] {
        assert c in q0;
        var k :| 0 <= k < |q0| && q0[k] == c;
        assert q0[1..][k - 1] == c;
      }
    }
  }

  /** The inner loop of the search: enqueues each callee of `f` whose
      counter is zero (giving absent callees a zero counter, as `operator[]`
      does), in some order of the callee set. */
  method Enqueue(allCalls: map<string, set<string>>, f: string, usefulness0: map<string, int>, queue0: seq<string>)
    returns (usefulness: map<string, int>, queue: seq<string>)
    requires forall n :: n in usefulness0 ==> usefulness0[n] >= 0
    ensures forall n :: n in usefulness ==> usefulness[n] >= 0
    ensures Visited(usefulness) == Visited(usefulness0)
    ensures |queue0| <= |queue| && queue[..|queue0|] == queue0
    ensures forall k :: |queue0| <= k < |queue| ==>
      queue[k] !in Visited(usefulness0) && queue[k] in Callees(allCalls, f)
    ensures forall c :: c in Callees(allCalls, f) ==> c in Visited(usefulness0) || c in queue
    ensures CountIn(queue, Visited(usefulness0)) == CountIn(queue0, Visited(usefulness0))
  {
    usefulness, queue := usefulness0, queue0;
    ghost var v1 := Visited(usefulness0);
    var callees := Callees(allCalls, f);
    while callees != {}
      invariant forall n :: n in usefulness ==> usefulness[n] >= 0
      invariant Visited(usefulness) == v1
      invariant callees <= Callees(allCalls, f)
      invariant |queue0| <= |queue| && queue[..|queue0|] == queue0
      invariant forall k :: |queue0| <= k < |queue| ==> queue[k] !in v1 && queue[k] in Callees(allCalls, f)
      invariant forall c :: c in Callees(allCalls, f) - callees ==> c in v1 || c in queue
      invariant CountIn(queue, v1) == CountIn(queue0, v1)
      decreases callees
    {
      var c :| c in callees;
      if c !in usefulness {
        usefulness := usefulness[c := 0];
        assert Visited(usefulness) == v1;
      }
      if usefulness[c] == 0 {
        ghost var before := queue;
        queue := queue + [c];
        assert queue[..|before|] == before;
        assert queue[..|queue0|] == before[..|queue0|];
      }
      callees := callees - {c};
    }
  }

  /** FunctionElimination, VariableElimination, FunctionElimination over a
      mask that starts all true, then compaction: the result is the
      bytecode with exactly the instructions `DeadCodeKeeps` keeps, in
      order. */
  method DeadCodeElimination(bytecode: seq<Instruction>) returns (optimized: seq<Instruction>)
    requires WellFormed(bytecode) && FunctionWalksStop(bytecode)
    ensures exists keep :: |keep| == |bytecode| && DeadCodeKeeps(bytecode, keep) && optimized == Compact(bytecode, keep)
  {
    var mask := new bool[|bytecode|](_ => true);
    ghost var m0 := mask[..];
    assert m0 == AllKept(|bytecode|);
    ghost var useful1 := FunctionElimination(bytecode, mask);
    ghost var m1 := mask[..];
    assert FunctionsEliminated(bytecode, m0, m1);
    FunctionsEliminatedWalks(bytecode, m0, m1);
    VariableElimination(bytecode, mask);
    ghost var m2 := mask[..];
    ghost var useful2 := FunctionElimination(bytecode, mask);
    assert FunctionsEliminated(bytecode, m2, mask[..]);
    assert DeadCodeKeeps(bytecode, mask[..]);
    optimized := Compaction(bytecode, mask);
  }

  /** The instructions whose mask entry is set, copied in order. */
  method Compaction(bytecode: seq<Instruction>, mask: array<bool>) returns (optimized: seq<Instruction>)
    requires mask.Length == |bytecode|
    ensures optimized == Compact(bytecode, mask[..])
  {
    optimized := [];
    var opIndex := 0;
    while opIndex < |bytecode|
      invariant 0 <= opIndex <= |bytecode|
      invariant optimized == Compact(bytecode[..opIndex], mask[..opIndex])
    {
      if mask[opIndex] {
        optimized := optimized + [bytecode[opIndex]];
      }
      opIndex := opIndex + 1;
      assert bytecode[..opIndex][..opIndex - 1] == bytecode[..opIndex - 1];
      assert mask[..opIndex][..opIndex - 1] == mask[..opIndex - 1];
    }
    assert bytecode[..|bytecode|] == bytecode;
    assert mask[..|bytecode|] == mask[..];
  }

  /** `Optimizer::optimize`. */
  method Optimize(bytecode: seq<Instruction>) returns (optimized: seq<Instruction>)
    requires WellFormed(bytecode) && FunctionWalksStop(bytecode)
    ensures exists keep :: |keep| == |bytecode| && DeadCodeKeeps(bytecode, keep) && optimized == Compact(bytecode, keep)
  {
    optimized := DeadCodeElimination(bytecode);
  }
}
