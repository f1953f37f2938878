/** The activation record `Astate` and the two globals every Adel function
 *  works on, `adel_stack` and `adel_current` (adel.h:8-32), as values.
 *  The integer widths of the source are kept: `line`, `wait` and the cursor
 *  are `uint16_t`, the clock `millis()` is an Arduino `unsigned long`. */
module Records {

  const U16_MOD: nat := 0x1_0000
  const U32_MOD: nat := 0x1_0000_0000

  /** `uint16_t` */
  type U16 = x: nat | x < 0x1_0000

  /** A reading of `millis()` (32-bit `unsigned long`). */
  type Clock = x: nat | x < 0x1_0000_0000

  /** Storing a non-negative value into a `uint16_t`. */
  function Wrap16(x: nat): (r: U16)
    ensures x < U16_MOD ==> r == x
  {
    x % U16_MOD
  }

  /** `ADEL_FINALLY`, the resume label of a finished function. */
  const ADEL_FINALLY: nat := 99999

  /** What `a_me.line = ADEL_FINALLY` actually stores in the 16-bit field. */
  const FINALLY_LINE: U16 := 99999 % 0x1_0000

  /** A resume label: the `__LINE__` of a suspension macro. It is never 0
   *  (the `case 0` that starts a body), it fits the 16-bit `line` field so
   *  the stored value still matches its `case`, and it differs from the
   *  stored `ADEL_FINALLY` so a finished record never resumes into a body. */
  type Label = l: U16 | 0 < l && l != FINALLY_LINE witness 1

  /** `Astate`: the resume line, the delay deadline, and the loop field `i`
   *  (declared `uint16_5` in the source, read here as an unused `uint16_t`). */
  datatype Astate = Astate(line: U16, wait: U16, i: U16)

  /** What `Astate()` builds, and what the zero-initialised global table
   *  holds in every slot before the first dispatch. */
  const INITIAL: Astate := Astate(0, 0, 0)

  /** `adel_stack` and `adel_current` taken together. */
  datatype Machine = Machine(stack: seq<Astate>, current: U16) {

    /** The table is non-empty, fits 16-bit slot numbers, and the cursor
     *  points into it. */
    predicate Valid() {
      0 < |stack| <= U16_MOD && current < |stack|
    }

    /** `adel_stack[slot].line = l` */
    function SetLine(slot: nat, l: U16): (m: Machine)
      requires slot < |stack|
      ensures |m.stack| == |stack| && m.current == current
      ensures m.stack[slot] == stack[slot].(line := l)
      ensures forall j :: 0 <= j < |stack| && j != slot ==> m.stack[j] == stack[j]
    {
      this.(stack := stack[slot := stack[slot].(line := l)])
    }
  }

  /** Only the records in `slots` may differ between the two machines, and
   *  the table keeps its size. */
  predicate OnlyChanged(m: Machine, m': Machine, slots: set<nat>) {
    && |m'.stack| == |m.stack|
    && forall j :: 0 <= j < |m.stack| && j !in slots ==> m'.stack[j] == m.stack[j]
  }
}
