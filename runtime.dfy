/** The globals `adel_stack` and `adel_current` (adel.h:23-32) as one
 *  object whose fields the macros update in place, and the macros of
 *  adel.h:82-214 as its methods. Each method does, statement by statement,
 *  what its macro does to the table and the cursor, and is proved to leave
 *  the state that the matching step function of `Macros` (or, for a whole
 *  dispatch, `Tasks.Tick`) computes, so every property proved about those
 *  functions holds of the in-place code.
 *
 *  A child call `f` inside a macro is represented by the status it
 *  returns, passed in as an argument. */
module AdelRuntime {
  import opened AdelStatus
  import opened HeapSlots
  import opened Records
  import opened Macros
  import Tasks

  class Runtime {
    /** `MAX_DEPTH` */
    const maxDepth: nat
    /** `adel_stack[1 << MAX_DEPTH]` */
    const table: array<Astate>
    /** `adel_current` */
    var current: U16

    ghost predicate Valid()
      reads this
    {
      table.Length == Pow2(maxDepth) && table.Length <= U16_MOD && current < table.Length
    }

    /** The table and the cursor as a value. */
    function State(): (m: Machine)
      reads this, table
      requires Valid()
      ensures m.Valid() && |m.stack| == table.Length
    {
      Machine(table[..], current)
    }

    /** The zero-initialised global table: every record is `Astate()` and
     *  the cursor is 0. The slot count must fit the 16-bit cursor. */
    constructor(depth: nat)
      requires depth <= 16
      ensures Valid() && maxDepth == depth && fresh(table)
      ensures State() == Machine(seq(Pow2(depth), _ => INITIAL), 0)
    {
      Pow2Monotone(depth, 16);
      Pow2Sixteen();
      maxDepth := depth;
      table := new Astate[Pow2(depth)](_ => INITIAL);
      current := 0;
    }

    /** `adelay(t)` */
    method Delay(me: nat, site: Label, entry: Entry, now: Clock, t: nat) returns (step: Step)
      requires Valid() && CanEnter(State(), me, site, entry)
      modifies table
      ensures Valid()
      ensures Outcome(step, State(), []) == DelayStep(old(State()), me, site, entry, now, t)
    {
      if entry == Arrive {
        table[me] := table[me].(line := site, wait := Wrap16(now + t));
      }
      step := if now < table[me].wait then Suspend else Proceed;
    }

    /** `andthen(f)`, where `f` returned `fStatus` */
    method AndThen(me: nat, site: Label, entry: Entry, fStatus: Adel) returns (step: Step, ran: seq<nat>)
      requires Valid() && CanEnter(State(), me, site, entry) && Child(me, 1) < table.Length
      modifies this, table
      ensures Valid()
      ensures Outcome(step, State(), ran) == AndThenStep(old(State()), me, site, entry, fStatus)
    {
      var c := Child(me, 1);
      if entry == Arrive {
        table[me] := table[me].(line := site);
        table[c] := table[c].(line := 0);
      }
      current := c;
      ran := [c];
      step := if fStatus.IsCont() then Suspend else Proceed;
    }

    /** `await(c)`, where the condition evaluated to `holds` */
    method Await(me: nat, site: Label, entry: Entry, holds: bool) returns (step: Step)
      requires Valid() && CanEnter(State(), me, site, entry)
      modifies table
      ensures Valid()
      ensures Outcome(step, State(), []) == AwaitStep(old(State()), me, site, entry, holds)
    {
      if entry == Arrive {
        table[me] := table[me].(line := site);
      }
      step := if !holds then Suspend else Proceed;
    }

    /** `adountil(t, f)`, where `f` returned `fStatus` in the slot the
     *  cursor names */
    method DoUntil(me: nat, site: Label, entry: Entry, now: Clock, t: nat, fStatus: Adel)
      returns (step: Step, ran: seq<nat>)
      requires Valid() && CanEnter(State(), me, site, entry)
      modifies table
      ensures Valid()
      ensures Outcome(step, State(), ran) == DoUntilStep(old(State()), me, site, entry, now, t, fStatus)
    {
      if entry == Arrive {
        table[me] := table[me].(line := site, wait := Wrap16(now + t));
      }
      ran := [current];
      step := if fStatus.IsCont() && now < table[me].wait then Suspend else Proceed;
    }

    /** The shared prefix of `aboth` and `auntileither`, up to and including
     *  the cursor writes around the two child calls. */
    method Fork(me: nat, site: Label, entry: Entry) returns (ran: seq<nat>)
      requires Valid() && CanEnter(State(), me, site, entry) && Child(me, 2) < table.Length
      modifies this, table
      ensures Valid()
      ensures State() == ForkStep(old(State()), me, site, entry)
      ensures ran == [Child(me, 1), Child(me, 2)]
    {
      var c1, c2 := Child(me, 1), Child(me, 2);
      if entry == Arrive {
        table[me] := table[me].(line := site);
        table[c1] := table[c1].(line := 0);
        table[c2] := table[c2].(line := 0);
      }
      current := c1;
      current := c2;
      ran := [c1, c2];
    }

    /** `aboth(f, g)`, where `f` and `g` returned `fStatus` and `gStatus` */
    method Both(me: nat, site: Label, entry: Entry, fStatus: Adel, gStatus: Adel)
      returns (step: Step, ran: seq<nat>)
      requires Valid() && CanEnter(State(), me, site, entry) && Child(me, 2) < table.Length
      modifies this, table
      ensures Valid()
      ensures Outcome(step, State(), ran) == BothStep(old(State()), me, site, entry, fStatus, gStatus)
    {
      ran := Fork(me, site, entry);
      step := if fStatus.IsCont() || gStatus.IsCont() then Suspend else Proceed;
    }

    /** `auntileither(f, g)`, where `f` and `g` returned `fStatus` and
     *  `gStatus` */
    method UntilEither(me: nat, site: Label, entry: Entry, fStatus: Adel, gStatus: Adel)
      returns (step: Step, ran: seq<nat>)
      requires Valid() && CanEnter(State(), me, site, entry) && Child(me, 2) < table.Length
      modifies this, table
      ensures Valid()
      ensures Outcome(step, State(), ran) == UntilEitherStep(old(State()), me, site, entry, fStatus, gStatus)
    {
      ran := Fork(me, site, entry);
      step := if fStatus.IsCont() && gStatus.IsCont() then Suspend else Branch(fStatus.IsDone());
    }

    /** `areturn` */
    method Return(me: nat) returns (status: Adel)
      requires Valid() && me < table.Length
      modifies table
      ensures Valid()
      ensures Result(status, State(), []) == ReturnStep(old(State()), me)
    {
      table[me] := table[me].(line := FINALLY_LINE);
      status := Cont;
    }

    /** `aend` */
    method End(me: nat) returns (status: Adel)
      requires Valid() && me < table.Length
      modifies table
      ensures Valid()
      ensures Result(status, State(), []) == EndStep(old(State()), me)
    {
      table[me] := table[me].(line := FINALLY_LINE);
      status := Done;
    }

    /** The macro `s`, with its children's statuses and its condition taken
     *  from `w`, the first child being the k-th of the pass. */
    method Exec(s: Tasks.Stmt, me: nat, entry: Entry, w: Tasks.World, k: nat) returns (step: Step, ran: seq<nat>)
      requires Valid() && !s.Return? && CanEnter(State(), me, s.site, entry)
      requires s.AndThen? ==> Child(me, 1) < table.Length
      requires s.Both? || s.UntilEither? ==> Child(me, 2) < table.Length
      modifies this, table
      ensures Valid()
      ensures Outcome(step, State(), ran) == Tasks.StepOf(s, old(State()), me, entry, w, k)
    {
      match s
      case Delay(l, t) =>
        step := Delay(me, l, entry, w.now, t);
        ran := [];
      case AndThen(l) =>
        step, ran := AndThen(me, l, entry, w.child(k));
      case Await(l, c) =>
        step := Await(me, l, entry, w.cond(c));
        ran := [];
      case DoUntil(l, t) =>
        step, ran := DoUntil(me, l, entry, w.now, t, w.child(k));
      case Both(l) =>
        step, ran := Both(me, l, entry, w.child(k), w.child(k + 1));
      case UntilEither(l) =>
        step, ran := UntilEither(me, l, entry, w.child(k), w.child(k + 1));
    }

    /** The macro at position `pc` of `body`, as `Run` takes it: the pass
     *  goes on as `After` says. */
    method StepAt(body: seq<Tasks.Stmt>, me: nat, pc: nat, entry: Entry, w: Tasks.World, k: nat)
      returns (step: Step, ran: seq<nat>)
      requires Valid() && me < table.Length && pc < |body| && Tasks.SlotsFit(body, me, table.Length)
      requires !body[pc].Return? && CanEnter(State(), me, body[pc].site, entry)
      modifies this, table
      ensures Valid() && table[me].line == body[pc].site
      ensures Tasks.Run(body, me, pc, entry, old(State()), w, k) == Tasks.After(body, me, pc, Outcome(step, State(), ran), w, k)
    {
      assert body[pc] in body;
      step, ran := Exec(body[pc], me, entry, w, k);
    }

    /** The body from position `pc` on, entered as `entry`, with `k`
     *  children already run in this pass: the macros in order until one
     *  suspends, then `areturn` or `aend` if control gets that far. */
    method RunFrom(body: seq<Tasks.Stmt>, me: nat, pc: nat, entry: Entry, w: Tasks.World, k: nat)
      returns (status: Adel, dispatched: seq<nat>)
      requires Valid() && me < table.Length && pc <= |body| && Tasks.SlotsFit(body, me, table.Length)
      requires entry == Resume ==> pc < |body| && !body[pc].Return? && table[me].line == body[pc].site
      modifies this, table
      ensures Valid()
      ensures Result(status, State(), dispatched) == Tasks.Run(body, me, pc, entry, old(State()), w, k)
      decreases |body| - pc
    {
      if pc == |body| {
        status := End(me);
        dispatched := [];
      } else if body[pc].Return? {
        status := Return(me);
        dispatched := [];
      } else {
        ghost var m0 := State();
        var step, ran := StepAt(body, me, pc, entry, w, k);
        ghost var m1 := State();
        ghost var o := Outcome(step, m1, ran);
        Tasks.AfterAt(body, me, pc, o, w, k);
        if step.Suspend? {
          status, dispatched := Cont, ran;
        } else {
          var rest;
          status, rest := RunFrom(body, me, pc + 1, Arrive, w, k + |ran|);
          ghost var r := Result(status, State(), rest);
          dispatched := ran + rest;
          assert Tasks.Run(body, me, pc, entry, m0, w, k) == Tasks.Then(ran, r);
        }
      }
    }

    /** One dispatch of the function whose body is `body`, in slot `me`:
     *  the caller's cursor write (`adel_current = achild(c)`, or
     *  `adel_current = 0` in `astart`), then `abegin`'s `switch` and the
     *  body from where it lands, or `aend` when no `case` matches. The
     *  status, the new table and cursor, and the slots the children ran in
     *  are those `Tasks.Tick` gives. */
    method Dispatch(body: seq<Tasks.Stmt>, me: nat, w: Tasks.World) returns (status: Adel, dispatched: seq<nat>)
      requires Valid() && me < table.Length && Tasks.SlotsFit(body, me, table.Length)
      modifies this, table
      ensures Valid()
      ensures Result(status, State(), dispatched) == Tasks.Tick(body, me, old(State()), w)
    {
      current := me;
      match Tasks.JumpFor(body, table[me].line) {
        case Past =>
          status := End(me);
          dispatched := [];
        case Start =>
          status, dispatched := RunFrom(body, me, 0, Arrive, w, 0);
        case At(j) =>
          status, dispatched := RunFrom(body, me, j, Resume, w, 0);
      }
    }
  }
}
