/** Slot arithmetic of the activation-record tree (adel.h:23-39).
 *  The records of the running tasks form a binary tree stored as a heap:
 *  the task in slot i keeps its first child in slot 2i+1 and its second in
 *  slot 2i+2. The table holds `1 << MAX_DEPTH` slots and nothing checks an
 *  index against that size, so staying inside it is left to the caller. */
module HeapSlots {

  /** 2^k, the value of `1 << k`. */
  function Pow2(k: nat): (p: nat)
    ensures p >= 1
  {
    if k == 0 then 1 else 2 * Pow2(k - 1)
  }

  /** The child numbers `achild` is used with. */
  predicate IsChildNumber(c: nat) {
    c == 1 || c == 2
  }

  /** `achild(c)`: `(a_my_index << 1) + c`. A child never lands on its
   *  parent's slot, and first children sit at odd slots, second at even. */
  function Child(i: nat, c: nat): (r: nat)
    requires IsChildNumber(c)
    ensures i < r
    ensures r % 2 == c % 2
  {
    2 * i + c
  }

  /** The slot whose child `r` is (the inverse of `Child`). */
  function Parent(r: nat): (p: nat)
    requires r > 0
    ensures p < r
  {
    (r - 1) / 2
  }

  /** Which child of its parent slot `r` is. */
  function Side(r: nat): (c: nat)
    requires r > 0
    ensures IsChildNumber(c)
  {
    if r % 2 == 1 then 1 else 2
  }

  /** `Parent` and `Side` undo `Child` ... */
  lemma ChildRoundTrip(i: nat, c: nat)
    requires IsChildNumber(c)
    ensures Parent(Child(i, c)) == i && Side(Child(i, c)) == c
  {
  }

  /** ... and every slot but the root is the child of exactly one slot. */
  lemma ParentRoundTrip(r: nat)
    requires r > 0
    ensures Child(Parent(r), Side(r)) == r
  {
  }

  /** Distinct (parent, child number) pairs give distinct slots, so two
   *  live children of two tasks never share a record. */
  lemma ChildInjective(i: nat, c: nat, j: nat, d: nat)
    requires IsChildNumber(c) && IsChildNumber(d)
    requires Child(i, c) == Child(j, d)
    ensures i == j && c == d
  {
    ChildRoundTrip(i, c);
    ChildRoundTrip(j, d);
  }

  /** Nesting level of a slot: the root is at level 0, children of a slot
   *  at level n are at level n + 1. */
  function Level(r: nat): nat
    decreases r
  {
    if r == 0 then 0 else Level(Parent(r)) + 1
  }

  lemma LevelOfChild(i: nat, c: nat)
    requires IsChildNumber(c)
    ensures Level(Child(i, c)) == Level(i) + 1
  {
    ChildRoundTrip(i, c);
  }

  /** The slots of level n are exactly 2^n - 1 .. 2^(n+1) - 2. */
  lemma {:induction false} LevelBounds(r: nat)
    ensures Pow2(Level(r)) - 1 <= r <= Pow2(Level(r) + 1) - 2
    decreases r
  {
    if r > 0 {
      LevelBounds(Parent(r));
      ParentRoundTrip(r);
    }
  }

  lemma {:induction false} Pow2Monotone(a: nat, b: nat)
    requires a <= b
    ensures Pow2(a) <= Pow2(b)
    decreases b
  {
    if a < b {
      Pow2Monotone(a, b - 1);
    }
  }

  /** `1 << 16`, the number of slots a 16-bit cursor can name. */
  lemma Pow2Sixteen()
    ensures Pow2(16) == 0x1_0000
  {
    assert Pow2(8) == 256;
  }

  /** A table of `1 << depth` records holds every task nested fewer than
   *  `depth` levels deep; a task nested `depth` or more levels deep has
   *  no slot of its own unless it is the first slot of level `depth`,
   *  the one extra slot of the table. */
  lemma SlotFitsIffShallow(r: nat, depth: nat)
    ensures Level(r) < depth ==> r < Pow2(depth)
    ensures r < Pow2(depth) ==> Level(r) <= depth
    ensures r < Pow2(depth) - 1 <==> Level(r) < depth
  {
    LevelBounds(r);
    if Level(r) < depth {
      Pow2Monotone(Level(r) + 1, depth);
    } else {
      Pow2Monotone(depth, Level(r));
    }
    if Level(r) > depth {
      Pow2Monotone(depth + 1, Level(r));
    }
  }
}
