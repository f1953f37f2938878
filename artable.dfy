/** The lazily allocated activation-record table of adel.cpp:7-27.
 *  `AdelStack` keeps two arrays of record pointers with one slot per task
 *  index: `ars` remembers every record ever allocated for a slot, so a
 *  later call on the same slot reuses it, and `stack` holds the record the
 *  slot currently uses. A record is a raw byte buffer. */
module ArTable {
  import opened HeapSlots

  type Byte = bv8

  class AdelStack {
    /** `stack_depth` */
    const depth: nat
    /** `AdelStack::stack[1 << stack_depth]` */
    const stack: array<array?<Byte>>
    /** `AdelStack::ars[1 << stack_depth]` */
    const ars: array<array?<Byte>>
    /** `AdelStack::current` */
    var current: int

    /** The two tables have one slot per index; a slot of `stack` is either
     *  empty or the record `ars` keeps for it; and no record is shared by
     *  two slots or is one of the tables, since each came from its own
     *  allocation. */
    ghost predicate Valid()
      reads this, stack, ars
    {
      && stack != ars
      && stack.Length == ars.Length == Pow2(depth)
      && (forall i :: 0 <= i < stack.Length && stack[i] != null ==> stack[i] == ars[i])
      && (forall i :: 0 <= i < ars.Length && ars[i] != null ==> ars[i] as object != stack && ars[i] as object != ars)
      && (forall i, j :: 0 <= i < j < ars.Length && ars[i] != null ==> ars[i] != ars[j])
    }

    /** The static storage before the first call: every pointer is null. */
    constructor(stackDepth: nat)
      ensures Valid() && depth == stackDepth && current == 0
      ensures fresh(stack) && fresh(ars)
      ensures forall i :: 0 <= i < ars.Length ==> ars[i] == null && stack[i] == null
    {
      depth := stackDepth;
      stack := new array?<Byte>[Pow2(stackDepth)](_ => null);
      ars := new array?<Byte>[Pow2(stackDepth)](_ => null);
      current := 0;
    }

    /** `memset(ar, 0, n)`: the first `n` bytes become 0, the rest stay. */
    static method Zero(ar: array<Byte>, n: nat)
      requires n <= ar.Length
      modifies ar
      ensures forall i :: 0 <= i < n ==> ar[i] == 0
      ensures forall i :: n <= i < ar.Length ==> ar[i] == old(ar[i])
    {
      var k := 0;
      while k < n
        invariant k <= n
        invariant forall i :: 0 <= i < k ==> ar[i] == 0
        invariant forall i :: k <= i < ar.Length ==> ar[i] == old(ar[i])
      {
        ar[k] := 0;
        k := k + 1;
      }
    }

    /** `init_ar(index, size)`: the record of slot `index`, allocated on the
     *  first call for that slot and reused on every later one, with its
     *  first `size` bytes cleared, installed in `stack` and returned. A
     *  reused record must be at least `size` bytes long, since `memset`
     *  writes `size` bytes into it whatever size it was allocated with. */
    method InitAr(index: nat, size: nat) returns (ar: array<Byte>)
      requires Valid() && index < ars.Length
      requires ars[index] != null ==> size <= ars[index].Length
      modifies stack, ars, ars[index]
      ensures Valid()
      ensures ar == ars[index] && ar == stack[index]
      ensures old(ars[index]) == null ==> fresh(ar) && ar.Length == size
      ensures old(ars[index]) != null ==> ar == old(ars[index])
      ensures size <= ar.Length && forall i :: 0 <= i < size ==> ar[i] == 0
      ensures old(ars[index]) != null ==> forall i :: size <= i < ar.Length ==> ar[i] == old(ar[i])
      ensures forall i :: 0 <= i < ars.Length && i != index ==> ars[i] == old(ars[i]) && stack[i] == old(stack[i])
    {
      var r := ars[index];
      if r == null {
        r := new Byte[size];
        ars[index] := r;
      }
      Zero(r, size);
      stack[index] := r;
      ar := r;
    }

    /** Two calls on the same slot hand back the same record, cleared again
     *  by the second call. */
    method InitArTwice(index: nat, size: nat) returns (first: array<Byte>, second: array<Byte>)
      requires Valid() && index < ars.Length
      requires ars[index] != null ==> size <= ars[index].Length
      modifies stack, ars, ars[index]
      ensures Valid() && first == second == ars[index] == stack[index]
      ensures size <= second.Length && forall i :: 0 <= i < size ==> second[i] == 0
    {
      first := InitAr(index, size);
      second := InitAr(index, size);
    }
  }
}
