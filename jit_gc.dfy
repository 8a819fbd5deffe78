/** The collector the JIT-compiled code calls (include/Jit/GarbageCollector.h):
    it owns every array the program allocates, and `collect` frees each one
    whose address no word of the machine stack holds.

    Memory is word-addressed: the stack is an `array<int>` whose index `p`
    is the word at address `p`, and an allocation is known by the address
    the system allocator gave it. */
module JitGc {

  /** One array the collector owns: its address and its cells. */
  datatype Allocation = Allocation(address: int, cells: array<int>)

  /** The values of the stack words from `lo` to `hi`, both included. */
  function Roots(words: seq<int>, lo: int, hi: int): set<int> {
    set p | lo <= p <= hi && 0 <= p < |words| :: words[p]
  }

  /** The allocations whose address is one of the roots, in their order. */
  function Survivors(allocs: seq<Allocation>, roots: set<int>): seq<Allocation>
    decreases |allocs|
  {
    if allocs == [] then []
    else
      var last := allocs[|allocs| - 1];
      Survivors(allocs[..|allocs| - 1], roots) + (if last.address in roots then [last] else [])
  }

  /** No two allocations share an address. */
  predicate Distinct(allocs: seq<Allocation>) {
    forall i, j :: 0 <= i < j < |allocs| ==> allocs[i].address != allocs[j].address
  }

  /** An allocation survives exactly when it was allocated and a root holds
      its address: nothing is added. */
  lemma {:induction false} SurvivorsMembers(allocs: seq<Allocation>, roots: set<int>)
    ensures forall a :: a in Survivors(allocs, roots) <==> a in allocs && a.address in roots
    ensures |Survivors(allocs, roots)| <= |allocs|
    decreases |allocs|
  {
    if allocs != [] {
      var front := allocs[..|allocs| - 1];
      SurvivorsMembers(front, roots);
      assert allocs == front + [allocs[|allocs| - 1]];
    }
  }

  /** Survivors keep their order: the filter distributes over concatenation. */
  lemma {:induction false} SurvivorsAppend(a: seq<Allocation>, b: seq<Allocation>, roots: set<int>)
    ensures Survivors(a + b, roots) == Survivors(a, roots) + Survivors(b, roots)
    decreases |b|
  {
    if b != [] {
      var front := b[..|b| - 1];
      assert (a + b)[..|a + b| - 1] == a + front;
      SurvivorsAppend(a, front, roots);
    } else {
      assert a + b == a;
    }
  }

  /** Collecting twice with the same roots frees nothing the second time. */
  lemma {:induction false} SurvivorsIdempotent(allocs: seq<Allocation>, roots: set<int>)
    ensures Survivors(Survivors(allocs, roots), roots) == Survivors(allocs, roots)
    decreases |allocs|
  {
    if allocs != [] {
      var front := allocs[..|allocs| - 1];
      var last := allocs[|allocs| - 1];
      SurvivorsIdempotent(front, roots);
      var kept := if last.address in roots then [last] else [];
      SurvivorsAppend(Survivors(front, roots), kept, roots);
      if last.address in roots {
        assert Survivors(kept, roots) == Survivors([], roots) + [last];
      }
    }
  }

  lemma SurvivorIsAllocated(allocs: seq<Allocation>, roots: set<int>, a: Allocation)
    requires a in Survivors(allocs, roots)
    ensures a in allocs
  {
    SurvivorsMembers(allocs, roots);
  }

  /** Survivors of distinct allocations are distinct. */
  lemma {:induction false} SurvivorsDistinct(allocs: seq<Allocation>, roots: set<int>)
    requires Distinct(allocs)
    ensures Distinct(Survivors(allocs, roots))
    decreases |allocs|
  {
    if allocs != [] {
      var front := allocs[..|allocs| - 1];
      var last := allocs[|allocs| - 1];
      SurvivorsDistinct(front, roots);
      SurvivorsMembers(front, roots);
      var s := Survivors(front, roots);
      forall i | 0 <= i < |s|
        ensures s[i].address != last.address
      {
        SurvivorIsAllocated(front, roots, s[i]);
        var m :| 0 <= m < |front| && front[m] == s[i];
        assert allocs[m] == s[i];
      }
    }
  }

  /** Adding one stack word to the window adds its value to the roots. */
  lemma RootsStep(words: seq<int>, lo: int, hi: int)
    requires lo <= hi + 1 && 0 <= hi + 1 < |words|
    ensures Roots(words, lo, hi + 1) == Roots(words, lo, hi) + {words[hi + 1]}
  {
    assert words[hi + 1] in Roots(words, lo, hi + 1);
  }

  class GarbageCollector {
    var allocations: seq<Allocation>
    /** `BasePtr`, the bottom of the stack, set by `initStack`. */
    var basePtr: int
    /** Whether `initStack` has been called; before it `BasePtr` holds no
        value. */
    var stackKnown: bool

    ghost predicate Valid()
      reads this
    {
      Distinct(allocations)
    }

    constructor()
      ensures Valid() && allocations == [] && !stackKnown
    {
      allocations := [];
      basePtr := 0;
      stackKnown := false;
    }

    /** `newArrayAlloc`: a zeroed array of `size` cells at the fresh
        `address` the system allocator hands out, recorded as the newest
        allocation. */
    method NewArrayAlloc(size: nat, address: int) returns (ptr: array<int>)
      requires Valid()
      requires forall a :: a in allocations ==> a.address != address
      modifies this
      ensures Valid()
      ensures fresh(ptr) && ptr.Length == size
      ensures forall i :: 0 <= i < size ==> ptr[i] == 0
      ensures allocations == old(allocations) + [Allocation(address, ptr)]
      ensures basePtr == old(basePtr) && stackKnown == old(stackKnown)
    {
      ptr := new int[size];
      var i := 0;
      while i < size
        modifies ptr
        invariant 0 <= i <= size
        invariant forall j :: 0 <= j < i ==> ptr[j] == 0
      {
        ptr[i] := 0;
        i := i + 1;
      }
      allocations := allocations + [Allocation(address, ptr)];
    }

    /** `initStack`: records the bottom of the stack. */
    method InitStack(stackPtr: int)
      modifies this
      ensures basePtr == stackPtr && stackKnown
      ensures allocations == old(allocations)
    {
      basePtr := stackPtr;
      stackKnown := true;
    }

    /** The search of `collect`'s inner loop: the first allocation at the
        address `word`, or `|allocations|` when there is none. */
    method Find(word: int) returns (i: nat)
      ensures i <= |allocations|
      ensures i < |allocations| ==> allocations[i].address == word
      ensures forall j :: 0 <= j < i ==> allocations[j].address != word
    {
      i := 0;
      while i < |allocations|
        invariant i <= |allocations|
        invariant forall j :: 0 <= j < i ==> allocations[j].address != word
      {
        if allocations[i].address == word {
          return;
        }
        i := i + 1;
      }
    }

    /** The marking phase of `collect`: an allocation is marked exactly when
        a stack word from `stackPtr` up to the base holds its address. */
    method Mark(stack: array<int>, stackPtr: int) returns (marked: array<bool>)
      requires Valid() && stackKnown
      requires stackPtr <= basePtr ==> 0 <= stackPtr && basePtr < stack.Length
      ensures fresh(marked) && marked.Length == |allocations|
      ensures forall j :: 0 <= j < |allocations| ==>
        (marked[j] <==> allocations[j].address in Roots(stack[..], stackPtr, basePtr))
    {
      var n := |allocations|;
      marked := new bool[n];
      var k := 0;
      while k < n
        modifies marked
        invariant 0 <= k <= n
        invariant forall j :: 0 <= j < k ==> !marked[j]
      {
        marked[k] := false;
        k := k + 1;
      }
      var ptr := stackPtr;
      while ptr <= basePtr
        modifies marked
        invariant stackPtr <= basePtr ==> stackPtr <= ptr <= basePtr + 1
        invariant stackPtr > basePtr ==> ptr == stackPtr
        invariant forall j :: 0 <= j < n ==>
          (marked[j] <==> allocations[j].address in Roots(stack[..], stackPtr, ptr - 1))
        decreases basePtr - ptr
      {
        var word := stack[ptr];
        var i := Find(word);
        RootsStep(stack[..], stackPtr, ptr - 1);
        if i < n {
          marked[i] := true;
        }
        ptr := ptr + 1;
      }
      if stackPtr > basePtr {
        assert Roots(stack[..], stackPtr, ptr - 1) == {} == Roots(stack[..], stackPtr, basePtr);
      }
    }

    /** `collect`: marks every allocation whose address a stack word from
        `stackPtr` up to the base holds, then keeps the marked ones in their
        order and frees the rest. */
    method Collect(stack: array<int>, stackPtr: int)
      requires Valid() && stackKnown
      requires stackPtr <= basePtr ==> 0 <= stackPtr && basePtr < stack.Length
      modifies this
      ensures Valid()
      ensures allocations == Survivors(old(allocations), Roots(stack[..], stackPtr, basePtr))
      ensures basePtr == old(basePtr) && stackKnown
    {
      var marked := Mark(stack, stackPtr);
      ghost var roots := Roots(stack[..], stackPtr, basePtr);
      var newHeap: seq<Allocation> := [];
      var i := 0;
      while i < |allocations|
        invariant 0 <= i <= |allocations|
        invariant newHeap == Survivors(allocations[..i], roots)
      {
        assert allocations[..i + 1][..i] == allocations[..i];
        if marked[i] {
          newHeap := newHeap + [allocations[i]];
        }
        i := i + 1;
      }
      assert allocations[..i] == allocations;
      SurvivorsDistinct(allocations, roots);
      allocations := newHeap;
    }
  }
}
