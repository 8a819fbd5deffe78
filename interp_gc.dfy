/** The variable store of the interpreter back end
    (include/Interpreter/GarbageCollector.h): a stack of named 64-bit
    variables, searched newest first, and the list of arrays allocated for
    array variables. A pointer to a variable's value is modelled by the
    variable's index in the stack. */
module InterpreterGc {
  import opened Basics

  /** `Variable`: a value and the name it was declared under. */
  datatype Variable = Variable(value: int, name: string)

  /** The index of the newest variable with the name, if any. */
  function Newest(stack: seq<Variable>, name: string): Option<nat>
    decreases |stack|
  {
    if stack == [] then None
    else if stack[|stack| - 1].name == name then Some(|stack| - 1)
    else Newest(stack[..|stack| - 1], name)
  }

  /** Lookup finds a variable exactly when one has the name, and then the
      one pushed last. */
  lemma {:induction false} NewestIsLast(stack: seq<Variable>, name: string)
    ensures Newest(stack, name).None? <==> forall i :: 0 <= i < |stack| ==> stack[i].name != name
    ensures Newest(stack, name).Some? ==>
      var i := Newest(stack, name).value;
      i < |stack| && stack[i].name == name &&
      forall j :: i < j < |stack| ==> stack[j].name != name
    decreases |stack|
  {
    if stack != [] && stack[|stack| - 1].name != name {
      NewestIsLast(stack[..|stack| - 1], name);
    }
  }

  /** A variable pushed last is the one lookup finds, whatever came before;
      other names are found where they were. */
  lemma PushedIsFound(stack: seq<Variable>, v: Variable, name: string)
    ensures Newest(stack + [v], name) == if v.name == name then Some(|stack|) else Newest(stack, name)
  {
    assert (stack + [v])[..|stack|] == stack;
  }

  class GarbageCollector {
    var stack: seq<Variable>
    /** The addresses of the arrays allocated so far; none is freed. */
    var allocations: seq<int>

    constructor()
      ensures stack == [] && allocations == []
    {
      stack := [];
      allocations := [];
    }

    /** `getVariablePtr`: the newest variable with the name, searched from
        the top of the stack down; `None` is the null pointer. */
    method GetVariablePtr(name: string) returns (r: Option<nat>)
      ensures r == Newest(stack, name)
    {
      var i := |stack| - 1;
      assert stack[..i + 1] == stack;
      while i >= 0
        invariant -1 <= i < |stack|
        invariant Newest(stack, name) == Newest(stack[..i + 1], name)
        decreases i
      {
        if stack[i].name == name {
          return Some(i);
        }
        assert stack[..i + 1][..i] == stack[..i];
        i := i - 1;
      }
      r := None;
    }

    /** `newInt`: a new integer variable holding 0. */
    method NewInt(name: string)
      modifies this
      ensures stack == old(stack) + [Variable(0, name)]
      ensures allocations == old(allocations)
    {
      stack := stack + [Variable(0, name)];
    }

    /** `newPtr`: a new pointer variable, null at first. */
    method NewPtr(name: string)
      modifies this
      ensures stack == old(stack) + [Variable(0, name)]
      ensures allocations == old(allocations)
    {
      stack := stack + [Variable(0, name)];
    }

    /** `newArrayAlloc`: records an array at the fresh `address` the system
        allocator hands out and pushes a variable holding that address. A
        negative size makes `new int64_t[]` throw before anything is
        recorded; `ok` is false then and nothing changes. */
    method NewArrayAlloc(name: string, size: int, address: int) returns (ok: bool)
      modifies this
      ensures ok <==> size >= 0
      ensures ok ==> allocations == old(allocations) + [address]
      ensures ok ==> stack == old(stack) + [Variable(address, name)]
      ensures !ok ==> allocations == old(allocations) && stack == old(stack)
    {
      if size < 0 {
        return false;
      }
      allocations := allocations + [address];
      stack := stack + [Variable(address, name)];
      ok := true;
    }

    /** `newScope`: does nothing yet. */
    method NewScope()
      ensures stack == old(stack) && allocations == old(allocations)
    {
    }

    /** `destroyScope`: does nothing yet. */
    method DestroyScope()
      ensures stack == old(stack) && allocations == old(allocations)
    {
    }
  }
}
