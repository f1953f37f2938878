/** One dispatch of an Adel function whose body is a straight sequence of
 *  suspension macros (adel.h:82-93 with the macros of adel.h:108-214).
 *
 *  `abegin` reads the slot from the cursor and `switch`es on the saved
 *  line: line 0 starts the body from the top, a line equal to the label of
 *  one of its macros resumes that macro, and any other value (the stored
 *  `ADEL_FINALLY` among them) matches no `case` and lands on the code after
 *  the `switch`, where `aend` marks the record finished and returns DONE.
 *  Falling off the last macro reaches the same code.
 *
 *  The children a macro runs and the conditions `await` tests are not
 *  modelled as code: a `World` supplies, for one pass, the clock, the status
 *  returned by the k-th child run of that pass, and the value of each
 *  condition. */
module Tasks {
  import opened AdelStatus
  import opened HeapSlots
  import opened Records
  import opened Macros

  /** A macro occurrence in a body; `site` is its `__LINE__`. */
  datatype Stmt =
    | Delay(site: Label, t: nat)        // adelay(t)
    | AndThen(site: Label)              // andthen(f)
    | Await(site: Label, cond: nat)     // await(c)
    | DoUntil(site: Label, t: nat)      // adountil(t, f)
    | Both(site: Label)                 // aboth(f, g)
    | UntilEither(site: Label)          // auntileither(f, g)
    | Return                            // areturn

  /** The environment of one pass: `millis()`, the children's statuses in
   *  the order they run, and the `await` conditions. */
  datatype World = World(now: Clock, child: nat -> Adel, cond: nat -> bool)

  /** The statement carries a `case` label equal to `line`. */
  predicate HasSite(s: Stmt, line: nat) {
    !s.Return? && s.site == line
  }

  /** The C compiler refuses two equal `case` labels in one `switch`. */
  predicate WellLabelled(body: seq<Stmt>) {
    forall i, j :: 0 <= i < j < |body| && !body[i].Return? ==> !HasSite(body[j], body[i].site)
  }

  predicate IsResumePoint(body: seq<Stmt>, line: nat) {
    exists j :: 0 <= j < |body| && HasSite(body[j], line)
  }

  /** The child slots the body's macros index stay inside the table (the
   *  source never checks this). */
  predicate SlotsFit(body: seq<Stmt>, me: nat, n: nat) {
    forall s :: s in body ==>
      && (s.AndThen? ==> Child(me, 1) < n)
      && (s.Both? || s.UntilEither? ==> Child(me, 2) < n)
  }

  /** Where the `switch` sends control. */
  datatype Jump = Start | At(pc: nat) | Past

  /** The first `case` at or after position `i` whose label is `line`. */
  function Find(body: seq<Stmt>, line: nat, i: nat): (j: Jump)
    requires i <= |body|
    ensures j.At? ==> i <= j.pc < |body| && HasSite(body[j.pc], line)
    ensures j.Past? <==> forall k :: i <= k < |body| ==> !HasSite(body[k], line)
    ensures !j.Start?
    decreases |body| - i
  {
    if i == |body| then Past
    else if HasSite(body[i], line) then At(i)
    else Find(body, line, i + 1)
  }

  /** `switch (a_me.line)` with its `case 0:` and one `case` per macro. */
  function JumpFor(body: seq<Stmt>, line: nat): (j: Jump)
    ensures j.Start? <==> line == 0
    ensures j.At? ==> j.pc < |body| && HasSite(body[j.pc], line)
    ensures j.Past? <==> line != 0 && !IsResumePoint(body, line)
  {
    if line == 0 then Start else Find(body, line, 0)
  }

  /** One pass of the macro `s`, with the k-th child status of the pass
   *  going to its first child. */
  function StepOf(s: Stmt, m: Machine, me: nat, entry: Entry, w: World, k: nat): (o: Outcome)
    requires !s.Return? && CanEnter(m, me, s.site, entry)
    requires s.AndThen? ==> Child(me, 1) < |m.stack|
    requires s.Both? || s.UntilEither? ==> Child(me, 2) < |m.stack|
    ensures o.m.Valid() && OnlyChanged(m, o.m, {me, Child(me, 1), Child(me, 2)})
    ensures o.m.stack[me].line == s.site
    ensures entry == Resume && (s.Delay? || s.DoUntil? || s.Await?) ==> o.m == m
  {
    match s
    case Delay(l, t) => DelayStep(m, me, l, entry, w.now, t)
    case AndThen(l) => AndThenStep(m, me, l, entry, w.child(k))
    case Await(l, c) => AwaitStep(m, me, l, entry, w.cond(c))
    case DoUntil(l, t) => DoUntilStep(m, me, l, entry, w.now, t, w.child(k))
    case Both(l) => BothStep(m, me, l, entry, w.child(k), w.child(k + 1))
    case UntilEither(l) => UntilEitherStep(m, me, l, entry, w.child(k), w.child(k + 1))
  }

  /** A pass whose earlier macros ran children in `ran` and whose rest is `r`. */
  function Then(ran: seq<nat>, r: Result): (t: Result)
    ensures t.status == r.status && t.m == r.m && t.dispatched == ran + r.dispatched
  {
    Result(r.status, r.m, ran + r.dispatched)
  }

  /** Running the body from position `pc`, entered as `entry`, with `k`
   *  children already run in this pass. A pass reports DONE only when it
   *  leaves the record finished, never reports NONE, and a CONT leaves the
   *  record either finished (`areturn`) or at a label of the body, where
   *  the next pass resumes. Besides the cursor, only the task's own record
   *  and its two child slots change. */
  function Run(body: seq<Stmt>, me: nat, pc: nat, entry: Entry, m: Machine, w: World, k: nat): (r: Result)
    requires m.Valid() && me < |m.stack| && pc <= |body| && SlotsFit(body, me, |m.stack|)
    requires entry == Resume ==> pc < |body| && !body[pc].Return? && m.stack[me].line == body[pc].site
    ensures r.m.Valid() && OnlyChanged(m, r.m, {me, Child(me, 1), Child(me, 2)})
    ensures r.status.IsDone() || r.status.IsCont()
    ensures r.status.IsDone() ==> r.m.stack[me].line == FINALLY_LINE
    ensures r.status.IsCont() ==> r.m.stack[me].line == FINALLY_LINE || IsResumePoint(body, r.m.stack[me].line)
    decreases |body| - pc, 1
  {
    if pc == |body| then EndStep(m, me)
    else if body[pc].Return? then ReturnStep(m, me)
    else
      assert body[pc] in body;
      After(body, me, pc, StepOf(body[pc], m, me, entry, w, k), w, k)
  }

  /** What follows the macro at `pc` once it has run with outcome `o`: the
   *  pass ends there with CONT if it suspended, and otherwise control falls
   *  through to the next statement. */
  function After(body: seq<Stmt>, me: nat, pc: nat, o: Outcome, w: World, k: nat): (r: Result)
    requires o.m.Valid() && me < |o.m.stack| && pc < |body| && SlotsFit(body, me, |o.m.stack|)
    requires !body[pc].Return? && o.m.stack[me].line == body[pc].site
    ensures r.m.Valid() && OnlyChanged(o.m, r.m, {me, Child(me, 1), Child(me, 2)})
    ensures r.status.IsDone() || r.status.IsCont()
    ensures r.status.IsDone() ==> r.m.stack[me].line == FINALLY_LINE
    ensures r.status.IsCont() ==> r.m.stack[me].line == FINALLY_LINE || IsResumePoint(body, r.m.stack[me].line)
    decreases |body| - pc, 0
  {
    if o.step.Suspend? then
      assert HasSite(body[pc], o.m.stack[me].line);
      Result(Cont, o.m, o.dispatched)
    else Then(o.dispatched, Run(body, me, pc + 1, Arrive, o.m, w, k + |o.dispatched|))
  }

  /** Unfolding `After`: a macro that suspended ends the pass with CONT,
   *  any other outcome goes on at the next statement. */
  lemma AfterAt(body: seq<Stmt>, me: nat, pc: nat, o: Outcome, w: World, k: nat)
    requires o.m.Valid() && me < |o.m.stack| && pc < |body| && SlotsFit(body, me, |o.m.stack|)
    requires !body[pc].Return? && o.m.stack[me].line == body[pc].site
    ensures o.step.Suspend? ==> After(body, me, pc, o, w, k) == Result(Cont, o.m, o.dispatched)
    ensures !o.step.Suspend? ==>
              After(body, me, pc, o, w, k) == Then(o.dispatched, Run(body, me, pc + 1, Arrive, o.m, w, k + |o.dispatched|))
  {
  }

  /** Unfolding `Run` at a macro: a pass that suspends there reports
   *  CONT with the macro's machine, one that proceeds goes on at `pc + 1`. */
  lemma RunAt(body: seq<Stmt>, me: nat, pc: nat, entry: Entry, m: Machine, w: World, k: nat, o: Outcome)
    requires m.Valid() && me < |m.stack| && pc < |body| && SlotsFit(body, me, |m.stack|)
    requires !body[pc].Return? && CanEnter(m, me, body[pc].site, entry)
    requires o == StepOf(body[pc], m, me, entry, w, k)
    ensures o.m.Valid() && me < |o.m.stack| && SlotsFit(body, me, |o.m.stack|)
    ensures o.step.Suspend? ==> Run(body, me, pc, entry, m, w, k) == Result(Cont, o.m, o.dispatched)
    ensures !o.step.Suspend? ==>
              Run(body, me, pc, entry, m, w, k) == Then(o.dispatched, Run(body, me, pc + 1, Arrive, o.m, w, k + |o.dispatched|))
  {
    assert body[pc] in body;
  }

  /** One dispatch of the function in slot `me`: the caller's
   *  `adel_current = achild(c)` (or `astart`'s `adel_current = 0`), then
   *  `abegin`, the `switch`, and the body or `aend`. */
  function Tick(body: seq<Stmt>, me: nat, m: Machine, w: World): (r: Result)
    requires m.Valid() && me < |m.stack| && SlotsFit(body, me, |m.stack|)
    ensures r.m.Valid() && OnlyChanged(m, r.m, {me, Child(me, 1), Child(me, 2)})
    ensures r.status.IsDone() || r.status.IsCont()
    ensures r.status.IsDone() ==> r.m.stack[me].line == FINALLY_LINE
    ensures r.status.IsCont() ==> r.m.stack[me].line == FINALLY_LINE || IsResumePoint(body, r.m.stack[me].line)
  {
    var m0 := m.(current := me);
    match JumpFor(body, m0.stack[me].line)
    case Start => Run(body, me, 0, Arrive, m0, w, 0)
    case At(j) => Run(body, me, j, Resume, m0, w, 0)
    case Past => EndStep(m0, me)
  }

  /** Re-dispatching a finished record: the stored `ADEL_FINALLY` matches no
   *  label, so control goes straight to `aend`, which rewrites the same line
   *  and reports DONE again; nothing else changes and no child runs. */
  lemma FinishedDispatchIsIdempotent(body: seq<Stmt>, me: nat, m: Machine, w: World)
    requires m.Valid() && me < |m.stack| && SlotsFit(body, me, |m.stack|)
    requires m.stack[me].line == FINALLY_LINE
    ensures Tick(body, me, m, w) == Result(Done, m.(current := me), [])
  {
    var m0 := m.(current := me);
    assert m0.stack[me := m0.stack[me].(line := FINALLY_LINE)] == m0.stack;
  }

  /** What the child of `adountil` does when the cursor still names the
   *  caller, as it does on a pass in which no earlier `andthen`, `aboth` or
   *  `auntileither` moved it, in particular on every pass that resumes at
   *  the `adountil`: the child's `abegin` switches on the
   *  caller's own record, which holds the `adountil`'s label. Unless the
   *  child's body has a macro with that same label, no `case` matches, and
   *  the child's `aend` stores `ADEL_FINALLY` in the caller's record and
   *  reports DONE. The child's own body never runs. */
  lemma DoUntilChildEndsCaller(fbody: seq<Stmt>, m: Machine, me: nat, site: Label, entry: Entry,
                               now: Clock, t: nat, f: Adel, w: World)
    requires CanEnter(m, me, site, entry) && m.current == me
    requires SlotsFit(fbody, me, |m.stack|) && !IsResumePoint(fbody, site)
    ensures var o := DoUntilStep(m, me, site, entry, now, t, f);
            && o.dispatched == [me]
            && Tick(fbody, o.dispatched[0], o.m, w) == EndStep(o.m, me)
            && Tick(fbody, o.dispatched[0], o.m, w).status == Done
            && Tick(fbody, o.dispatched[0], o.m, w).m.stack[me].line == FINALLY_LINE
  {
    var o := DoUntilStep(m, me, site, entry, now, t, f);
    assert o.m.(current := me) == o.m;
    assert JumpFor(fbody, o.m.stack[me].line) == Past;
  }

  /** `andthen(f); adountil(5, g);` on the first pass of a fresh record in
   *  slot 0, with `f` reporting DONE: `andthen` leaves the cursor at slot 1,
   *  so `g` runs in slot 1 too, not in the caller's slot. */
  lemma AndThenMovesDoUntilChild(w: World)
    requires w.child(0).IsDone()
    ensures SlotsFit([AndThen(1), DoUntil(2, 5)], 0, 3)
    ensures Tick([AndThen(1), DoUntil(2, 5)], 0, Machine([INITIAL, INITIAL, INITIAL], 0), w).dispatched == [1, 1]
  {
    var body := [AndThen(1), DoUntil(2, 5)];
    var m0 := Machine([INITIAL, INITIAL, INITIAL], 0);
    AndThenThenDoUntilSteps(w);
    var o1 := StepOf(body[0], m0, 0, Arrive, w, 0);
    RunAt(body, 0, 0, Arrive, m0, w, 0, o1);
    RunAt(body, 0, 1, Arrive, o1.m, w, 1, StepOf(body[1], o1.m, 0, Arrive, w, 1));
  }

  /** The two macro steps of `AndThenMovesDoUntilChild`, one at a time. */
  lemma AndThenThenDoUntilSteps(w: World)
    requires w.child(0).IsDone()
    ensures var o1 := StepOf(AndThen(1), Machine([INITIAL, INITIAL, INITIAL], 0), 0, Arrive, w, 0);
            && o1.m.current == 1 && o1.dispatched == [1] && !o1.step.Suspend? && |o1.m.stack| == 3
            && StepOf(DoUntil(2, 5), o1.m, 0, Arrive, w, 1).dispatched == [1]
  {
    var o1 := StepOf(AndThen(1), Machine([INITIAL, INITIAL, INITIAL], 0), 0, Arrive, w, 0);
    assert o1.m.current == 1 && o1.dispatched == [1];
  }

  /** A `Return` appended to a body adds no `case` label. */
  lemma {:induction false} FindAppendReturn(b: seq<Stmt>, line: nat, i: nat)
    requires i <= |b|
    ensures Find(b + [Return], line, i) == Find(b, line, i)
    decreases |b| - i
  {
    var a := b + [Return];
    if i == |b| {
      assert !HasSite(a[i], line);
      assert Find(a, line, i + 1) == Past;
    } else {
      assert a[i] == b[i];
      FindAppendReturn(b, line, i + 1);
    }
  }

  lemma SlotsFitAppendReturn(b: seq<Stmt>, me: nat, n: nat)
    requires SlotsFit(b, me, n)
    ensures SlotsFit(b + [Return], me, n)
  {
    forall s | s in b + [Return] ensures s in b || s == Return {
    }
  }

  lemma {:induction false} RunAppendReturn(b: seq<Stmt>, me: nat, pc: nat, entry: Entry, m: Machine, w: World, k: nat)
    requires m.Valid() && me < |m.stack| && pc <= |b|
    requires SlotsFit(b, me, |m.stack|) && SlotsFit(b + [Return], me, |m.stack|)
    requires entry == Resume ==> pc < |b| && !b[pc].Return? && m.stack[me].line == b[pc].site
    ensures var rb := Run(b, me, pc, entry, m, w, k);
            Run(b + [Return], me, pc, entry, m, w, k)
            == if rb.status.IsDone() then Result(Cont, rb.m, rb.dispatched) else rb
    decreases |b| - pc
  {
    var a := b + [Return];
    if pc == |b| {
      assert a[pc] == Return;
    } else {
      assert a[pc] == b[pc];
      if !b[pc].Return? {
        var o := StepOf(b[pc], m, me, entry, w, k);
        RunAt(a, me, pc, entry, m, w, k, o);
        RunAt(b, me, pc, entry, m, w, k, o);
        if !o.step.Suspend? {
          RunAppendReturn(b, me, pc + 1, Arrive, o.m, w, k + |o.dispatched|);
        }
      }
    }
  }

  /** Ending a body with `areturn` instead of letting it fall off the end
   *  changes nothing on a pass that suspends, but on the pass that would
   *  have reported DONE it reports CONT with the same machine. */
  lemma AppendReturn(b: seq<Stmt>, me: nat, m: Machine, w: World)
    requires m.Valid() && me < |m.stack| && SlotsFit(b, me, |m.stack|)
    ensures SlotsFit(b + [Return], me, |m.stack|)
    ensures var rb := Tick(b, me, m, w);
            Tick(b + [Return], me, m, w)
            == if rb.status.IsDone() && !JumpFor(b, m.stack[me].line).Past?
               then Result(Cont, rb.m, rb.dispatched) else rb
  {
    var m0 := m.(current := me);
    var line := m.stack[me].line;
    SlotsFitAppendReturn(b, me, |m.stack|);
    RunAppendReturn(b, me, 0, Arrive, m0, w, 0);
    if line != 0 {
      FindAppendReturn(b, line, 0);
      match JumpFor(b, line)
      case At(j) => RunAppendReturn(b, me, j, Resume, m0, w, 0);
      case Past =>
      case Start =>
    }
  }

  /** Termination latency: where falling off the body reports DONE in a
   *  pass, `areturn` in the same place reports CONT in that pass and DONE
   *  one pass later, without changing the machine in between. */
  lemma ReturnAddsOneTick(b: seq<Stmt>, me: nat, m: Machine, w: World, w': World)
    requires m.Valid() && me < |m.stack| && SlotsFit(b, me, |m.stack|)
    requires !JumpFor(b, m.stack[me].line).Past?
    requires Tick(b, me, m, w).status.IsDone()
    ensures SlotsFit(b + [Return], me, |m.stack|)
    ensures var r := Tick(b + [Return], me, m, w);
            && r.status.IsCont() && r.m == Tick(b, me, m, w).m
            && Tick(b + [Return], me, r.m, w') == Result(Done, r.m.(current := me), [])
  {
    AppendReturn(b, me, m, w);
    var r := Tick(b + [Return], me, m, w);
    FinishedDispatchIsIdempotent(b + [Return], me, r.m, w');
  }

  lemma {:induction false} FindSkipsPrefix(p: seq<Stmt>, s: seq<Stmt>, line: nat, i: nat)
    requires i <= |p| && forall k :: i <= k < |p| ==> !HasSite(p[k], line)
    ensures Find(p + s, line, i) == Find(p + s, line, |p|)
    decreases |p| - i
  {
    if i < |p| {
      assert (p + s)[i] == p[i];
      FindSkipsPrefix(p, s, line, i + 1);
    }
  }

  lemma {:induction false} FindShift(p: seq<Stmt>, s: seq<Stmt>, line: nat, i: nat)
    requires i <= |s|
    ensures Find(p + s, line, |p| + i) == match Find(s, line, i) case At(j) => At(|p| + j) case other => other
    decreases |s| - i
  {
    if i < |s| {
      assert (p + s)[|p| + i] == s[i];
      FindShift(p, s, line, i + 1);
    }
  }

  lemma SlotsFitSuffix(p: seq<Stmt>, s: seq<Stmt>, me: nat, n: nat)
    requires SlotsFit(p + s, me, n)
    ensures SlotsFit(s, me, n)
  {
    forall x | x in s ensures x in p + s {
    }
  }

  /** Shifting a body's tail behind a prefix `p` changes nothing about a
   *  run of that tail: running `p + s` from position `|p| + pc` is running
   *  `s` from `pc`. */
  lemma {:induction false} RunShift(p: seq<Stmt>, s: seq<Stmt>, me: nat, pc: nat, i: nat, entry: Entry, m: Machine, w: World, k: nat)
    requires m.Valid() && me < |m.stack| && pc <= |s| && i == |p| + pc
    requires SlotsFit(p + s, me, |m.stack|) && SlotsFit(s, me, |m.stack|)
    requires entry == Resume ==> pc < |s| && !s[pc].Return? && m.stack[me].line == s[pc].site
    ensures Run(p + s, me, i, entry, m, w, k) == Run(s, me, pc, entry, m, w, k)
    decreases |s| - pc, 1
  {
    if pc < |s| {
      assert (p + s)[i] == s[pc];
      if !s[pc].Return? {
        RunShiftStep(p, s, me, pc, i, entry, m, w, k);
      }
    }
  }

  /** The inductive step of `RunShift`, at a macro. */
  lemma {:induction false} RunShiftStep(p: seq<Stmt>, s: seq<Stmt>, me: nat, pc: nat, i: nat, entry: Entry, m: Machine, w: World, k: nat)
    requires m.Valid() && me < |m.stack| && pc < |s| && i == |p| + pc && !s[pc].Return?
    requires SlotsFit(p + s, me, |m.stack|) && SlotsFit(s, me, |m.stack|)
    requires CanEnter(m, me, s[pc].site, entry)
    ensures Run(p + s, me, i, entry, m, w, k) == Run(s, me, pc, entry, m, w, k)
    decreases |s| - pc, 0
  {
    var o := StepOf(s[pc], m, me, entry, w, k);
    assert (p + s)[i] == s[pc];
    RunAt(p + s, me, i, entry, m, w, k, o);
    RunAt(s, me, pc, entry, m, w, k, o);
    if !o.step.Suspend? {
      RunShift(p, s, me, pc + 1, i + 1, Arrive, o.m, w, k + |o.dispatched|);
    }
  }

  /** Resumption fidelity: a record saved at a label of the tail `s` of a
   *  body resumes there, and the pass behaves exactly as if the statements
   *  before the tail were not there; none of them runs again. */
  lemma ResumeSkipsPrefix(p: seq<Stmt>, s: seq<Stmt>, me: nat, m: Machine, w: World)
    requires m.Valid() && me < |m.stack| && SlotsFit(p + s, me, |m.stack|)
    requires IsResumePoint(s, m.stack[me].line) && !IsResumePoint(p, m.stack[me].line)
    ensures SlotsFit(s, me, |m.stack|)
    ensures Tick(p + s, me, m, w) == Tick(s, me, m, w)
  {
    SlotsFitSuffix(p, s, me, |m.stack|);
    var line := m.stack[me].line;
    FindSkipsPrefix(p, s, line, 0);
    FindShift(p, s, line, 0);
    assert |p| + 0 == |p|;
    match Find(s, line, 0)
    case At(j) => RunShift(p, s, me, j, |p| + j, Resume, m.(current := me), w, 0);
    case Past =>
    case Start =>
  }

  /** Sequence law for `andthen(f); andthen(g);` resumed at the first
   *  macro: while `f` reports CONT only `f` runs and the record stays at the
   *  first label; once `f` stops reporting CONT, `g` is dispatched in the
   *  same pass, in the same child slot, which `g`'s `andthen` has just reset
   *  to line 0, and the body's status is then decided by `g`. The stated
   *  line of that slot is the one `g` is dispatched with; since the
   *  writes of the children themselves are not modelled, it is also the
   *  slot's state at the end of the pass in the model, whereas in the
   *  program `g`'s own macros rewrite it. */
  lemma SequenceLaw(a: Label, b: Label, me: nat, m: Machine, w: World)
    requires m.Valid() && me < |m.stack| && Child(me, 1) < |m.stack|
    requires a != b && m.stack[me].line == a
    ensures SlotsFit([AndThen(a), AndThen(b)], me, |m.stack|)
    ensures var r := Tick([AndThen(a), AndThen(b)], me, m, w);
            && (w.child(0).IsCont() ==>
                  r.status.IsCont() && r.m.stack[me].line == a && r.dispatched == [Child(me, 1)])
            && (!w.child(0).IsCont() ==>
                  && r.dispatched == [Child(me, 1), Child(me, 1)]
                  && r.m.stack[Child(me, 1)].line == 0
                  && (r.status.IsCont() <==> w.child(1).IsCont()))
  {
    var body := [AndThen(a), AndThen(b)];
    var c := Child(me, 1);
    var m0 := m.(current := me);
    assert Find(body, a, 0) == At(0);
    assert m0.stack[me].line == a && a != 0;
    assert JumpFor(body, a) == Find(body, a, 0);
    assert JumpFor(body, m0.stack[me].line) == At(0);
    var o1 := AndThenStep(m0, me, a, Resume, w.child(0));
    assert Tick(body, me, m, w) == Run(body, me, 0, Resume, m0, w, 0);
    RunAt(body, me, 0, Resume, m0, w, 0, o1);
    if !w.child(0).IsCont() {
      var o2 := AndThenStep(o1.m, me, b, Arrive, w.child(1));
      RunAt(body, me, 1, Arrive, o1.m, w, 1, o2);
      var r2 := Run(body, me, 1, Arrive, o1.m, w, 1);
      if !w.child(1).IsCont() {
        assert Run(body, me, 2, Arrive, o2.m, w, 2) == EndStep(o2.m, me);
      }
      assert r2.dispatched == [c];
    }
  }

  /** The statuses of successive dispatches of the function in slot `me`,
   *  one per clock reading in `times`, the rest of the world held fixed. */
  function Ticks(body: seq<Stmt>, me: nat, m: Machine, w: World, times: seq<Clock>): (s: seq<Adel>)
    requires m.Valid() && me < |m.stack| && SlotsFit(body, me, |m.stack|)
    ensures |s| == |times|
    decreases |times|
  {
    if times == [] then []
    else
      var r := Tick(body, me, m, w.(now := times[0]));
      [r.status] + Ticks(body, me, r.m, w, times[1..])
  }

  /** With distinct labels the `switch` finds the one macro whose label is
   *  saved. */
  lemma FindLabel(body: seq<Stmt>, j: nat)
    requires WellLabelled(body) && j < |body| && !body[j].Return?
    ensures JumpFor(body, body[j].site) == At(j)
  {
    var line := body[j].site;
    assert HasSite(body[j], line);
  }

  /** A pass that resumes a delay before its deadline changes nothing but
   *  the cursor, and runs no child. */
  lemma DelayBeforeDeadline(body: seq<Stmt>, j: nat, me: nat, m: Machine, w: World)
    requires m.Valid() && me < |m.stack| && SlotsFit(body, me, |m.stack|) && WellLabelled(body)
    requires j < |body| && body[j].Delay? && m.stack[me].line == body[j].site
    requires w.now < m.stack[me].wait
    ensures Tick(body, me, m, w) == Result(Cont, m.(current := me), [])
  {
    FindLabel(body, j);
    var m0 := m.(current := me);
    RunAt(body, me, j, Resume, m0, w, 0, StepOf(body[j], m0, me, Resume, w, 0));
  }

  /** A dispatch that resumes at an `adountil` runs that macro first, with
   *  the cursor still on the caller, so its child runs in the caller's own
   *  record. */
  lemma DoUntilResumeRunsInOwnSlot(body: seq<Stmt>, j: nat, me: nat, m: Machine, w: World)
    requires m.Valid() && me < |m.stack| && SlotsFit(body, me, |m.stack|) && WellLabelled(body)
    requires j < |body| && body[j].DoUntil? && m.stack[me].line == body[j].site
    ensures |Tick(body, me, m, w).dispatched| > 0 && Tick(body, me, m, w).dispatched[0] == me
  {
    FindLabel(body, j);
    var m0 := m.(current := me);
    DoUntilRunsInOwnSlot(m0, me, body[j].site, Resume, w.now, body[j].t, w.child(0));
    RunAt(body, me, j, Resume, m0, w, 0, StepOf(body[j], m0, me, Resume, w, 0));
  }

  /** The dispatch at `t` followed by the dispatches at `ts`. */
  lemma TicksCons(body: seq<Stmt>, me: nat, m: Machine, w: World, t: Clock, ts: seq<Clock>, r: Result, s: seq<Adel>)
    requires m.Valid() && me < |m.stack| && SlotsFit(body, me, |m.stack|)
    requires r == Tick(body, me, m, w.(now := t))
    requires Ticks(body, me, r.m, w, ts) == s
    ensures Ticks(body, me, m, w, [t] + ts) == [r.status] + s
  {
    assert ([t] + ts)[1..] == ts;
  }

  /** One pass of `DelayHoldsAcrossPasses`: the clock reading `t` is before
   *  the deadline, so that pass reports CONT and changes nothing. */
  lemma DelayHoldsOnePass(body: seq<Stmt>, j: nat, me: nat, m: Machine, w: World, t: Clock, ts: seq<Clock>)
    requires m.Valid() && me < |m.stack| && SlotsFit(body, me, |m.stack|) && WellLabelled(body)
    requires j < |body| && body[j].Delay? && m.stack[me].line == body[j].site && m.current == me
    requires t < m.stack[me].wait
    ensures Ticks(body, me, m, w, [t] + ts) == [Cont] + Ticks(body, me, m, w, ts)
  {
    DelayBeforeDeadline(body, j, me, m, w.(now := t));
    assert m.(current := me) == m;
    TicksCons(body, me, m, w, t, ts, Result(Cont, m, []), Ticks(body, me, m, w, ts));
  }

  /** While its deadline has not passed, a delay holds its function: every
   *  pass reports CONT and leaves the machine as it was. */
  lemma {:induction false} DelayHoldsAcrossPasses(body: seq<Stmt>, j: nat, me: nat, m: Machine, w: World,
                                                  times: seq<Clock>, rest: seq<Clock>)
    requires m.Valid() && me < |m.stack| && SlotsFit(body, me, |m.stack|) && WellLabelled(body)
    requires j < |body| && body[j].Delay? && m.stack[me].line == body[j].site && m.current == me
    requires forall i :: 0 <= i < |times| ==> times[i] < m.stack[me].wait
    ensures Ticks(body, me, m, w, times + rest) == seq(|times|, _ => Cont) + Ticks(body, me, m, w, rest)
    decreases |times|
  {
    if times == [] {
      assert times + rest == rest;
      assert seq(|times|, _ => Cont) == [];
    } else {
      assert times + rest == [times[0]] + (times[1..] + rest);
      DelayHoldsOnePass(body, j, me, m, w, times[0], times[1..] + rest);
      DelayHoldsAcrossPasses(body, j, me, m, w, times[1..], rest);
      HoldsCons(|times|);
    }
  }

  /** `n` reports of CONT are one followed by `n - 1` more. */
  lemma HoldsCons(n: nat)
    requires n > 0
    ensures seq(n, _ => Cont) == [Cont] + seq(n - 1, _ => Cont)
  {
    var s, t := seq(n, _ => Cont), [Cont] + seq(n - 1, _ => Cont);
    assert forall i :: 0 <= i < n ==> s[i] == t[i];
  }

  /** The body `adelay(50); adelay(30);` with labels 10 and 20. */
  function TwoDelays(): (body: seq<Stmt>)
    ensures WellLabelled(body) && |body| == 2
  {
    [Delay(10, 50), Delay(20, 30)]
  }

  lemma TwoDelaysFirstPass(w: World)
    ensures Tick(TwoDelays(), 0, Machine([INITIAL], 0), w.(now := 0))
            == Result(Cont, Machine([Astate(10, 50, 0)], 0), [])
  {
    var m0 := Machine([INITIAL], 0);
    assert JumpFor(TwoDelays(), 0) == Start;
    var o := DelayStep(m0, 0, 10, Arrive, 0, 50);
    assert o.m == Machine([Astate(10, 50, 0)], 0);
  }

  lemma TwoDelaysMiddlePass(w: World)
    ensures Tick(TwoDelays(), 0, Machine([Astate(10, 50, 0)], 0), w.(now := 50))
            == Result(Cont, Machine([Astate(20, 80, 0)], 0), [])
  {
    var m1 := Machine([Astate(10, 50, 0)], 0);
    FindLabel(TwoDelays(), 0);
    var o1 := DelayStep(m1, 0, 10, Resume, 50, 50);
    assert o1.m == m1 && o1.step == Proceed;
    var o2 := DelayStep(m1, 0, 20, Arrive, 50, 30);
    assert o2.m == Machine([Astate(20, 80, 0)], 0);
  }

  lemma TwoDelaysLastPass(w: World)
    ensures Tick(TwoDelays(), 0, Machine([Astate(20, 80, 0)], 0), w.(now := 80)).status == Done
  {
    var m2 := Machine([Astate(20, 80, 0)], 0);
    FindLabel(TwoDelays(), 1);
    var o := DelayStep(m2, 0, 20, Resume, 80, 30);
    assert o.m == m2 && o.step == Proceed;
    assert Run(TwoDelays(), 0, 2, Arrive, m2, w.(now := 80), 0).status == Done;
  }

  /** After the second delay starts at 50 ms it holds until 80 ms. */
  lemma TwoDelaysSecondHold(w: World)
    ensures Ticks(TwoDelays(), 0, Machine([Astate(20, 80, 0)], 0), w, [75, 80]) == [Cont, Done]
  {
    var body := TwoDelays();
    var m2 := Machine([Astate(20, 80, 0)], 0);
    var r := Tick(body, 0, m2, w.(now := 80));
    TwoDelaysLastPass(w);
    TicksCons(body, 0, m2, w, 80, [], r, []);
    DelayHoldsOnePass(body, 1, 0, m2, w, 75, [80]);
  }

  /** At 50 ms the first delay runs out and the second one takes over. */
  lemma TwoDelaysHandOver(w: World)
    ensures Ticks(TwoDelays(), 0, Machine([Astate(10, 50, 0)], 0), w, [50, 75, 80]) == [Cont, Cont, Done]
  {
    TwoDelaysMiddlePass(w);
    TwoDelaysSecondHold(w);
    TicksCons(TwoDelays(), 0, Machine([Astate(10, 50, 0)], 0), w, 50, [75, 80],
              Result(Cont, Machine([Astate(20, 80, 0)], 0), []), [Cont, Done]);
  }

  /** The first delay holds until 50 ms, then the second one takes over. */
  lemma TwoDelaysFirstHold(w: World)
    ensures Ticks(TwoDelays(), 0, Machine([Astate(10, 50, 0)], 0), w, [25, 50, 75, 80])
            == [Cont, Cont, Cont, Done]
  {
    TwoDelaysHandOver(w);
    DelayHoldsOnePass(TwoDelays(), 0, 0, Machine([Astate(10, 50, 0)], 0), w, 25, [50, 75, 80]);
    assert [25 as Clock] + [50, 75, 80] == [25, 50, 75, 80];
    assert [Cont] + [Cont, Cont, Done] == [Cont, Cont, Cont, Done];
  }

  /** `adelay(50); adelay(30);` dispatched from a fresh record at 0, 25, 50,
   *  75 and 80 ms reports CONT four times and DONE on the last pass, the
   *  first at which both delays have run out. */
  lemma TwoDelaysScenario(w: World)
    ensures Ticks(TwoDelays(), 0, Machine([INITIAL], 0), w, [0, 25, 50, 75, 80])
            == [Cont, Cont, Cont, Cont, Done]
  {
    TwoDelaysFirstPass(w);
    TwoDelaysFirstHold(w);
    TicksCons(TwoDelays(), 0, Machine([INITIAL], 0), w, 0, [25, 50, 75, 80],
              Result(Cont, Machine([Astate(10, 50, 0)], 0), []), [Cont, Cont, Cont, Done]);
  }
}
