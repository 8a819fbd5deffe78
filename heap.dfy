/** The virtual machine's heap: a fixed array of `{isAllocated, value}` cells
    with first-fit block allocation. A block for `n` values occupies `n + 1`
    consecutive cells; the first (the header) holds the span `n + 1`, and the
    address handed out is the cell after the header. */
module Heap {

  datatype Cell = Cell(isAllocated: bool, value: int)

  /** The cell a freshly constructed heap holds everywhere. */
  const EmptyCell := Cell(false, 0)

  /** Cells `h .. h + span - 1` exist and are all unallocated. A span of 0 is
      a free run at every existing cell. */
  predicate FreeRun(s: seq<Cell>, h: int, span: int) {
    && 0 <= span
    && 0 <= h < |s|
    && h + span <= |s|
    && forall k :: h <= k < h + span ==> !s[k].isAllocated
  }

  /** No start in the heap begins a free run of `span` cells. */
  ghost predicate NoRoom(s: seq<Cell>, span: int) {
    forall h :: !FreeRun(s, h, span)
  }

  /** Reference definition of first fit: try every start from `from` on, in
      order, and return the first one that begins a free run of `span`
      cells, or -1 when there is none. */
  function FirstFit(s: seq<Cell>, span: int, from: nat): (h: int)
    ensures h == -1 <==> forall j :: from <= j ==> !FreeRun(s, j, span)
    ensures h != -1 ==> from <= h && FreeRun(s, h, span)
    ensures h != -1 ==> forall j :: from <= j < h ==> !FreeRun(s, j, span)
    decreases |s| - from
  {
    if from >= |s| then -1
    else if FreeRun(s, from, span) then from
    else FirstFit(s, span, from + 1)
  }

  /** The heap after claiming the block of `span` cells at `h`: every cell of
      the block is allocated and the header `h` holds the span. */
  function Claim(s: seq<Cell>, h: nat, span: int): (t: seq<Cell>)
    requires h < |s|
    ensures |t| == |s|
  {
    seq(|s|, k requires 0 <= k < |s| =>
      Cell(if h <= k < h + span then true else s[k].isAllocated,
           if k == h then span else s[k].value))
  }

  /** `AllocateMemory(n)`: the new heap and the address returned (-1 when no
      free run of `n + 1` cells exists). */
  function Allocate(s: seq<Cell>, n: int): (r: (seq<Cell>, int)) {
    var h := FirstFit(s, n + 1, 0);
    if h == -1 then (s, -1) else (Claim(s, h, n + 1), h + 1)
  }

  /** `freeMemory(p)`: for 0 < p < size, the `heap[p - 1].value` cells from
      the header `p - 1` on become unallocated and zero. The source walks that
      many cells without a bound check, so the block must fit in the heap. */
  predicate FreeFits(s: seq<Cell>, p: int) {
    0 < p < |s| ==> p - 1 + s[p - 1].value <= |s|
  }

  function Free(s: seq<Cell>, p: int): (t: seq<Cell>)
    requires FreeFits(s, p)
    ensures |t| == |s|
  {
    if p <= 0 || p >= |s| then s
    else
      var h, span := p - 1, s[p - 1].value;
      seq(|s|, k requires 0 <= k < |s| => if h <= k < h + span then EmptyCell else s[k])
  }

  /** `GetValueByIndex(i)`: the value of cell i, or -1 outside 0 < i < size. */
  function Read(s: seq<Cell>, i: int): int {
    if i <= 0 || i >= |s| then -1 else s[i].value
  }

  /** `SetValueByIndex(i, v)`: cell i takes the value v, allocated or not;
      outside 0 < i < size nothing changes. */
  function Write(s: seq<Cell>, i: int, v: int): (t: seq<Cell>)
    ensures |t| == |s|
  {
    if i <= 0 || i >= |s| then s else s[i := s[i].(value := v)]
  }

  /** A successful allocation of `n` values (n >= 0) returns `h + 1` where
      `h` is the first start of a free run of `n + 1` cells; the block becomes
      allocated, its header holds `n + 1`, and no other cell changes. A failed
      one returns -1 and leaves the heap as it was, exactly when no such run
      exists. */
  lemma AllocateSpec(s: seq<Cell>, n: int)
    requires n >= 0
    ensures var (t, r) := Allocate(s, n);
      && |t| == |s|
      && (r == -1 <==> NoRoom(s, n + 1))
      && (r == -1 ==> t == s)
      && (r != -1 ==>
            && FreeRun(s, r - 1, n + 1)
            && FirstRun(s, r - 1, n + 1)
            && (forall k :: r - 1 <= k <= r - 1 + n ==> t[k].isAllocated)
            && t[r - 1].value == n + 1
            && (forall k :: 0 <= k < |s| && !(r - 1 <= k <= r - 1 + n) ==> t[k] == s[k])
            && (forall k :: r <= k <= r - 1 + n ==> t[k].value == s[k].value))
  {
  }

  /** No start before `h` begins a free run of `span` cells. */
  predicate FirstRun(s: seq<Cell>, h: int, span: int) {
    forall j :: 0 <= j < h ==> !FreeRun(s, j, span)
  }

  /** Reading a cell returns what was last written to it: after
      `SetValueByIndex(i, v)` with 0 < i < size, `GetValueByIndex(i) == v`,
      and every other address reads as before. */
  lemma ReadAfterWrite(s: seq<Cell>, i: int, v: int, j: int)
    ensures Read(Write(s, i, v), j) == if 0 < i < |s| && j == i then v else Read(s, j)
  {
  }

  /** `SetValueByIndex` changes the value of cell i and nothing else: no
      allocation flag, whether or not cell i is allocated. */
  lemma WriteOnlyValue(s: seq<Cell>, i: int, v: int)
    ensures forall k :: 0 <= k < |s| ==>
      Write(s, i, v)[k].isAllocated == s[k].isAllocated &&
      (k != i ==> Write(s, i, v)[k] == s[k])
  {
  }

  /** Address 0 is always rejected: it can only be a header. */
  lemma ReadZeroRejected(s: seq<Cell>)
    ensures Read(s, 0) == -1
  {
  }

  /** Freeing the address an allocation returned gives the block's cells back
      (unallocated and zero) and touches nothing else. The one exception is a
      block for 0 values in the last cell: its address equals the heap size,
      which `freeMemory` rejects, so its header stays allocated. */
  lemma FreeAfterAllocate(s: seq<Cell>, n: int)
    requires n >= 0
    requires Allocate(s, n).1 != -1
    ensures Allocate(s, n).1 <= |s|
    ensures Allocate(s, n).1 == |s| ==> n == 0 && Free(Allocate(s, n).0, |s|) == Allocate(s, n).0
    ensures var (t, r) := Allocate(s, n);
      r < |s| ==>
      && FreeFits(t, r)
      && |Free(t, r)| == |s|
      && (forall k :: r - 1 <= k <= r - 1 + n ==> Free(t, r)[k] == EmptyCell)
      && (forall k :: 0 <= k < |s| && !(r - 1 <= k <= r - 1 + n) ==> Free(t, r)[k] == s[k])
  {
    AllocateSpec(s, n);
  }

  class Heap {
    const size: nat
    const heap: array<Cell>

    ghost predicate Valid()
      reads this
    {
      heap.Length == size
    }

    /** The cells as a sequence. */
    ghost function Cells(): seq<Cell>
      reads this, heap
    {
      heap[..]
    }

    constructor (size: nat)
      ensures Valid() && fresh(heap)
      ensures this.size == size
      ensures Cells() == seq(size, _ => EmptyCell)
    {
      this.size := size;
      heap := new Cell[size](_ => EmptyCell);
    }

    /** First-fit allocation of a block for `neededMemory` values, scanning
        candidate starts `it1` and growing the run `it1 .. it2` as the source
        does. */
    method AllocateMemory(neededMemory: int) returns (r: int)
      requires Valid()
      modifies heap
      ensures Valid()
      ensures (Cells(), r) == Allocate(old(Cells()), neededMemory)
    {
      var span := neededMemory + 1;
      ghost var s := heap[..];
      var it1 := 0;
      while it1 < size
        invariant 0 <= it1
        invariant heap[..] == s
        invariant forall j :: 0 <= j < it1 ==> !FreeRun(s, j, span)
      {
        var it2 := it1;
        while it2 < size && !heap[it2].isAllocated && it2 - it1 != span
          invariant it1 <= it2 <= size
          invariant span >= 0 ==> it2 - it1 <= span
          invariant forall k :: it1 <= k < it2 ==> !s[k].isAllocated
        {
          it2 := it2 + 1;
        }
        if it2 - it1 == span {
          assert FreeRun(s, it1, span);
          assert FirstFit(s, span, 0) == it1 by {
            FirstFitFrom(s, span, 0, it1);
          }
          var it := it1;
          while it < it2
            invariant it1 <= it <= it2
            invariant forall k :: 0 <= k < size ==>
              heap[k] == (if it1 <= k < it then s[k].(isAllocated := true) else s[k])
          {
            heap[it] := heap[it].(isAllocated := true);
            it := it + 1;
          }
          heap[it1] := heap[it1].(value := span);
          r := it1 + 1;
          assert heap[..] == Claim(s, it1, span);
          return;
        }
        forall j | it1 <= j <= it2 ensures !FreeRun(s, j, span) {
        }
        it1 := it2 + 1;
      }
      assert FirstFit(s, span, 0) == -1 by {
        forall j | 0 <= j ensures !FreeRun(s, j, span) {
        }
      }
      r := -1;
    }

    /** Releases the block whose data starts at `index`. */
    method FreeMemory(index: int)
      requires Valid() && FreeFits(Cells(), index)
      modifies heap
      ensures Valid()
      ensures Cells() == Free(old(Cells()), index)
    {
      if index <= 0 || index >= size {
        return;
      }
      var h := index - 1;
      var blockSize := heap[h].value;
      ghost var s := heap[..];
      var it := h;
      while it < h + blockSize
        invariant h <= it
        invariant blockSize > 0 ==> it <= h + blockSize
        invariant blockSize <= 0 ==> it == h
        invariant forall k :: 0 <= k < size ==>
          heap[k] == (if h <= k < it then EmptyCell else s[k])
      {
        heap[it] := EmptyCell;
        it := it + 1;
      }
      assert forall k :: 0 <= k < size ==> heap[k] == Free(s, index)[k];
    }

    method GetValueByIndex(index: int) returns (r: int)
      requires Valid()
      ensures r == Read(Cells(), index)
    {
      if index <= 0 || index >= size {
        return -1;
      }
      r := heap[index].value;
    }

    method SetValueByIndex(index: int, value: int)
      requires Valid()
      modifies heap
      ensures Valid()
      ensures Cells() == Write(old(Cells()), index, value)
    {
      if index <= 0 || index >= size {
        return;
      }
      heap[index] := heap[index].(value := value);
    }
  }

  /** First fit from `from` lands on `h` when `h` starts a free run and no
      start between `from` and `h` does. */
  lemma {:induction false} FirstFitFrom(s: seq<Cell>, span: int, from: nat, h: nat)
    requires from <= h && FreeRun(s, h, span)
    requires forall j :: from <= j < h ==> !FreeRun(s, j, span)
    ensures FirstFit(s, span, from) == h
    decreases h - from
  {
    if from < h {
      FirstFitFrom(s, span, from + 1, h);
    }
  }
}
