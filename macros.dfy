/** One pass of each suspension macro of adel.h, as a function of the
 *  machine before it (adel.h:89-214).
 *
 *  A macro is reached in one of two ways: by falling into it from the
 *  statement before (`Arrive`: the prefix that stores the new `line`, and
 *  for some macros the deadline or the child resets, runs first), or by the
 *  `switch` of `abegin` jumping to its `case __LINE__` (`Resume`: only the
 *  polling part runs). The polling part either returns `Adel::CONT` from the
 *  enclosing function (`Suspend`) or lets control fall through to the next
 *  statement (`Proceed`; `Branch` for `auntileither`, which falls into the
 *  condition of the `if` that follows it).
 *
 *  A child function runs between the cursor write that precedes it and the
 *  test of its status; here its returned status is an input, and
 *  `dispatched` lists, in order, the slots the children ran in. */
module Macros {
  import opened AdelStatus
  import opened HeapSlots
  import opened Records

  datatype Entry = Arrive | Resume

  datatype Step = Suspend | Proceed | Branch(firstDone: bool)

  datatype Outcome = Outcome(step: Step, m: Machine, dispatched: seq<nat>)

  /** What one dispatch of a whole Adel function returns, the machine it
   *  leaves, and the slots its children ran in, in order. */
  datatype Result = Result(status: Adel, m: Machine, dispatched: seq<nat>)

  /** Where a macro may be entered: in a valid machine, in a slot of the
   *  table, and, when the `switch` jumped to it, with its own label saved. */
  predicate CanEnter(m: Machine, me: nat, site: Label, entry: Entry) {
    m.Valid() && me < |m.stack| && (entry == Resume ==> m.stack[me].line == site)
  }

  /** `adelay(t)` (adel.h:112-116). The deadline `millis() + t` is computed
   *  once, on arrival, and stored in the 16-bit `wait`; re-entering never
   *  recomputes it. The sum is taken in 32 bits, and 2^32 is a multiple of
   *  2^16, so the stored value is the sum mod 2^16. The macro waits exactly
   *  while the clock is below the stored deadline. */
  function DelayStep(m: Machine, me: nat, site: Label, entry: Entry, now: Clock, t: nat): (o: Outcome)
    requires CanEnter(m, me, site, entry)
    ensures o.m.Valid() && o.m.current == m.current && o.dispatched == []
    ensures OnlyChanged(m, o.m, {me})
    ensures o.m.stack[me].line == site && o.m.stack[me].i == m.stack[me].i
    ensures entry == Resume ==> o.m == m
    ensures entry == Arrive ==> o.m.stack[me].wait == (now + t) % U16_MOD
    ensures o.step == Suspend <==> now < o.m.stack[me].wait
    ensures !o.step.Branch?
  {
    var rec := if entry == Arrive then m.stack[me].(line := site, wait := Wrap16(now + t)) else m.stack[me];
    Outcome(if now < rec.wait then Suspend else Proceed, m.(stack := m.stack[me := rec]), [])
  }

  /** `andthen(f)` (adel.h:125-131). On arrival it saves its label and
   *  `ainit_child(1)` resets only the `line` of the first child slot. On
   *  every pass it points the cursor at that slot and runs `f` there; it
   *  suspends exactly while `f` reports CONT, so a DONE or a NONE child lets
   *  control fall through in the same pass. */
  function AndThenStep(m: Machine, me: nat, site: Label, entry: Entry, f: Adel): (o: Outcome)
    requires CanEnter(m, me, site, entry) && Child(me, 1) < |m.stack|
    ensures o.m.Valid() && OnlyChanged(m, o.m, {me, Child(me, 1)})
    ensures o.m.stack[me] == m.stack[me].(line := site)
    ensures o.m.stack[Child(me, 1)]
            == if entry == Arrive then m.stack[Child(me, 1)].(line := 0) else m.stack[Child(me, 1)]
    ensures o.m.current == Child(me, 1) && o.dispatched == [Child(me, 1)]
    ensures o.step == Suspend <==> f.IsCont()
    ensures !o.step.Branch?
  {
    var c := Child(me, 1);
    var m1 := if entry == Arrive then m.SetLine(me, site).SetLine(c, 0) else m;
    Outcome(if f.IsCont() then Suspend else Proceed, m1.(current := c), [c])
  }

  /** `await(c)` (adel.h:136-139): saves its label on arrival and suspends
   *  exactly while the condition, evaluated afresh on each pass, is false. */
  function AwaitStep(m: Machine, me: nat, site: Label, entry: Entry, c: bool): (o: Outcome)
    requires CanEnter(m, me, site, entry)
    ensures o.m.Valid() && o.m.current == m.current && o.dispatched == []
    ensures OnlyChanged(m, o.m, {me})
    ensures o.m.stack[me] == m.stack[me].(line := site)
    ensures o.step == Suspend <==> !c
    ensures !o.step.Branch?
  {
    var m1 := if entry == Arrive then m.SetLine(me, site) else m;
    Outcome(if !c then Suspend else Proceed, m1, [])
  }

  /** `adountil(t, f)` (adel.h:145-150). Like `adelay` it stores the 16-bit
   *  deadline once, on arrival. Unlike `andthen` it neither resets a child
   *  slot nor moves the cursor: `f` runs in whatever slot `adel_current`
   *  still names. It suspends exactly while `f` reports CONT and the clock
   *  is below the deadline. */
  function DoUntilStep(m: Machine, me: nat, site: Label, entry: Entry, now: Clock, t: nat, f: Adel): (o: Outcome)
    requires CanEnter(m, me, site, entry)
    ensures o.m.Valid() && o.m.current == m.current && o.dispatched == [m.current]
    ensures OnlyChanged(m, o.m, {me})
    ensures o.m.stack[me].line == site && o.m.stack[me].i == m.stack[me].i
    ensures entry == Resume ==> o.m == m
    ensures entry == Arrive ==> o.m.stack[me].wait == (now + t) % U16_MOD
    ensures o.step == Suspend <==> f.IsCont() && now < o.m.stack[me].wait
    ensures !o.step.Branch?
  {
    var rec := if entry == Arrive then m.stack[me].(line := site, wait := Wrap16(now + t)) else m.stack[me];
    var step := if f.IsCont() && now < rec.wait then Suspend else Proceed;
    Outcome(step, m.(stack := m.stack[me := rec]), [m.current])
  }

  /** The common prefix of `aboth` and `auntileither`: save the label and
   *  reset the lines of both child slots, on arrival only; then run the first
   *  child in slot 2i+1 and the second in slot 2i+2, in that order. */
  function ForkStep(m: Machine, me: nat, site: Label, entry: Entry): (m': Machine)
    requires CanEnter(m, me, site, entry) && Child(me, 2) < |m.stack|
    ensures m'.Valid() && OnlyChanged(m, m', {me, Child(me, 1), Child(me, 2)})
    ensures m'.stack[me] == m.stack[me].(line := site)
    ensures forall c :: IsChildNumber(c) ==>
              m'.stack[Child(me, c)]
              == if entry == Arrive then m.stack[Child(me, c)].(line := 0) else m.stack[Child(me, c)]
    ensures m'.current == Child(me, 2)
  {
    var m1 := if entry == Arrive then m.SetLine(me, site).SetLine(Child(me, 1), 0).SetLine(Child(me, 2), 0) else m;
    m1.(current := Child(me, 2))
  }

  /** `aboth(f, g)` (adel.h:158-168): suspends exactly while at least one
   *  of the two children reports CONT. */
  function BothStep(m: Machine, me: nat, site: Label, entry: Entry, f: Adel, g: Adel): (o: Outcome)
    requires CanEnter(m, me, site, entry) && Child(me, 2) < |m.stack|
    ensures o.m == ForkStep(m, me, site, entry)
    ensures o.dispatched == [Child(me, 1), Child(me, 2)]
    ensures o.step == Suspend <==> f.IsCont() || g.IsCont()
    ensures !o.step.Branch?
  {
    var step := if f.IsCont() || g.IsCont() then Suspend else Proceed;
    Outcome(step, ForkStep(m, me, site, entry), [Child(me, 1), Child(me, 2)])
  }

  /** `auntileither(f, g)` (adel.h:183-193): suspends only while both
   *  children report CONT; otherwise it falls into a conditional that is true
   *  exactly when the first child reported DONE. */
  function UntilEitherStep(m: Machine, me: nat, site: Label, entry: Entry, f: Adel, g: Adel): (o: Outcome)
    requires CanEnter(m, me, site, entry) && Child(me, 2) < |m.stack|
    ensures o.m == ForkStep(m, me, site, entry)
    ensures o.dispatched == [Child(me, 1), Child(me, 2)]
    ensures o.step == Suspend <==> f.IsCont() && g.IsCont()
    ensures o.step != Suspend ==> o.step == Branch(f.IsDone())
  {
    var step := if f.IsCont() && g.IsCont() then Suspend else Branch(f.IsDone());
    Outcome(step, ForkStep(m, me, site, entry), [Child(me, 1), Child(me, 2)])
  }

  /** `areturn` (adel.h:212-214): marks the record finished but reports
   *  CONT, so the caller sees DONE only on the next dispatch. */
  function ReturnStep(m: Machine, me: nat): (r: Result)
    requires m.Valid() && me < |m.stack|
    ensures r.m.Valid() && r.m == m.SetLine(me, FINALLY_LINE) && r.dispatched == []
    ensures r.status.IsCont()
  {
    Result(Cont, m.SetLine(me, FINALLY_LINE), [])
  }

  /** `aend` (adel.h:89-93): reached by falling off the body, or straight
   *  from the `switch` when no `case` matches the saved line; it marks the
   *  record finished and reports DONE at once. */
  function EndStep(m: Machine, me: nat): (r: Result)
    requires m.Valid() && me < |m.stack|
    ensures r.m.Valid() && r.m == m.SetLine(me, FINALLY_LINE) && r.dispatched == []
    ensures r.status.IsDone()
  {
    Result(Done, m.SetLine(me, FINALLY_LINE), [])
  }

  /** Arriving at `adelay(t)` and then re-entering it at a later pass: when
   *  the deadline does not wrap, the delay holds exactly until `t` ms after
   *  the arrival, and re-entering changes nothing. */
  lemma DelayHoldsForDuration(m: Machine, me: nat, site: Label, start: Clock, t: nat, now: Clock)
    requires CanEnter(m, me, site, Arrive) && start + t < U16_MOD
    ensures var o1 := DelayStep(m, me, site, Arrive, start, t);
            var o2 := DelayStep(o1.m, me, site, Resume, now, t);
            && (o1.step == Suspend <==> t > 0)
            && (o2.step == Suspend <==> now < start + t)
            && o2.m == o1.m
  {
  }

  /** The 16-bit deadline wraps: arriving at a delay of at most 65536 ms
   *  whose end passes a multiple of 65536 ms (in particular any delay
   *  started after the first 65.536 s of uptime) does not wait at all. */
  lemma DelayWrapDoesNotWait(m: Machine, me: nat, site: Label, now: Clock, t: nat)
    requires CanEnter(m, me, site, Arrive)
    requires U16_MOD <= now + t && t <= U16_MOD
    ensures DelayStep(m, me, site, Arrive, now, t).step == Proceed
  {
    var w := (now + t) % U16_MOD;
    if now < U16_MOD {
      assert w == now + t - U16_MOD;
    }
  }

  /** On a pass in which no earlier `andthen`, `aboth` or `auntileither`
   *  moved the cursor (in particular every pass that resumes at the
   *  `adountil`), the cursor still names the caller, and `adountil` runs
   *  its child in the caller's own record. */
  lemma DoUntilRunsInOwnSlot(m: Machine, me: nat, site: Label, entry: Entry, now: Clock, t: nat, f: Adel)
    requires CanEnter(m, me, site, entry) && m.current == me
    ensures DoUntilStep(m, me, site, entry, now, t, f).dispatched == [me]
  {
  }

  /** When both children of `auntileither` finish in the same pass the
   *  first one wins; a first child that reports NONE sends control to the
   *  second arm even while the second child still runs. */
  lemma UntilEitherTies(m: Machine, me: nat, site: Label, entry: Entry, f: Adel, g: Adel)
    requires CanEnter(m, me, site, entry) && Child(me, 2) < |m.stack|
    ensures f.IsDone() ==> UntilEitherStep(m, me, site, entry, f, g).step == Branch(true)
    ensures f == None ==> UntilEitherStep(m, me, site, entry, f, g).step == Branch(false)
    ensures g.IsDone() && !f.IsDone() ==> UntilEitherStep(m, me, site, entry, f, g).step == Branch(false)
  {
  }
}
