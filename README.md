# Adel: a verified model of the coroutine runtime

Adel lets an Arduino sketch run many long-lived tasks on one thread.
Every task is an ordinary C++ function whose body is wrapped in `abegin` …
`aend`. Each function keeps an activation record `Astate`, holding the saved
resume line `line` and a deadline `wait`, in a global table `adel_stack`. The
table is used as a binary heap: the task in slot `i` runs its children in
slots `2i+1` and `2i+2`. A global cursor `adel_current` names the slot that
is about to run. A suspension macro saves its `__LINE__` as the resume line
and either returns `CONT` to its caller or lets control fall through. The
next dispatch `switch`es on the saved line and jumps straight back to that
macro. A second, separate table (`AdelStack` in adel.cpp) allocates the
record of a slot on first use and reuses it afterwards.

The model has seven modules:

- `AdelStatus` (status.dfy): the status class `Adel`.
- `HeapSlots` (heap.dfy): the slot arithmetic of `achild`, and which
  slots fit a table of `1 << MAX_DEPTH` records.
- `Records` (records.dfy): `Astate`, the 16-bit fields, the stored
  `ADEL_FINALLY`, and the table and cursor taken together as a value
  (`Machine`).
- `Macros` (macros.dfy): one pass of each suspension macro, as a function
  of the machine before it. A macro is entered either by arriving at it from
  the statement before or by being resumed by the `switch`.
- `Tasks` (tasks.dfy): one dispatch of a whole function, for bodies made of
  a straight sequence of macros (`Run`, `Tick`). This module holds the
  lemmas that relate several passes or several bodies.
- `AdelRuntime` (runtime.dfy): the class `Runtime`. It holds the table as
  an `array<Astate>` and the cursor as a field. It has one method per macro,
  written statement by statement as the macro is, and a dispatch method.
  Each method is proved to leave exactly the state that the matching
  function of `Macros` or `Tasks` computes, so everything proved about those
  functions holds of the in-place code.
- `ArTable` (artable.dfy): the class `AdelStack` with its two pointer
  tables `stack` and `ars` and the method `init_ar`.

The source's integer widths are kept:

- `line`, `wait` and the cursor are 16-bit.
- The clock is the 32-bit `millis()`.
- `ADEL_FINALLY` (99999) is stored as 99999 mod 65536.

A macro's resume label is a natural number. Labels within one body are
distinct, as the C compiler demands of `case` labels. The model further
restricts a label to be nonzero, below 65536 and different from 34463
(99999 mod 65536); "## Left out" says what the source does on the lines
this excludes.

Where the code does something other than its comments (adel.h:108-214)
say or than a reader would expect of it, the model follows the code:

- `andthen` suspends only while its child returns `CONT`. A child that
  returns `NONE` lets control fall through, just as `DONE` does.
- `adelay` and `adountil` store the deadline in the 16-bit `wait` field, so
  the deadline is `now + t` mod 65536. A delay of at most 65536 ms whose end
  passes a multiple of 65536 ms does not wait at all
  (`Macros.DelayWrapDoesNotWait`); a longer one waits only until the
  truncated deadline.
- `adountil` neither resets a child record nor moves the cursor. Its child
  runs in whatever slot `adel_current` still names. On any pass in which no
  earlier `andthen`, `aboth` or `auntileither` moved the cursor, in
  particular every pass that resumes at the `adountil`, that is the
  caller's own slot (`Macros.DoUntilRunsInOwnSlot`,
  `Tasks.DoUntilResumeRunsInOwnSlot`). After an `andthen` in the same
  pass whose child dispatched no child of its own, it is the `andthen`'s
  child slot (`Tasks.AndThenMovesDoUntilChild`). There the child's
  `abegin` switches on the caller's record, which holds the `adountil`'s
  label; unless the child has a macro with that same label, no `case`
  matches, so the child's `aend` stores `ADEL_FINALLY` in the caller's
  record and reports DONE, and the child's body never runs
  (`Tasks.DoUntilChildEndsCaller`).
- `auntileither` stores nothing; the `if` after it tests `f_status.done()`
  directly.
- Re-dispatching a finished record is well defined when no macro of the
  function sits on line 34463: it reports `DONE` again and changes nothing
  (`Tasks.FinishedDispatchIsIdempotent`).

The children a macro runs are not modelled as code. Their statuses come
from a `World` value: the status of the k-th child run of the pass, the
value of each `await` condition, and one clock reading per pass.

## Model

| member | source | states |
|---|---|---|
| AdelStatus.Default | adel.h:61 | A default-constructed status is NONE, neither done nor continuing |
| AdelStatus.FromStatus | adel.h:60 | Wrapping an enum value gives a status that is done iff the value is DONE and continuing iff it is CONT |
| AdelStatus.FromBool | adel.h:63 | The `bool` constructor always gives the default status NONE |
| AdelStatus.FromBoolIgnoresArgument | adel.h:63 | Both arguments of the `bool` constructor give the same status, which is not done |
| AdelStatus.Adel.IsDone | adel.h:65 | `done()` is true of DONE and false of NONE and of CONT |
| AdelStatus.Adel.IsCont | adel.h:66 | `cont()` is true of CONT and false of NONE and of DONE |
| AdelStatus.DoneExcludesCont | adel.h:65-66 | `done()` and `cont()` are never both true, and a status is NONE iff it is neither |
| HeapSlots.Pow2 | adel.h:29 | `1 << k` is at least 1 |
| HeapSlots.Child | adel.h:36 | `achild(c)` lies above the parent's slot, and its parity is that of `c` |
| HeapSlots.Parent | adel.h:36 | The parent of a non-root slot lies below it |
| HeapSlots.Side | adel.h:36 | Every non-root slot is a first or a second child |
| HeapSlots.ChildRoundTrip | adel.h:36 | `Parent` and `Side` recover the parent slot and child number from `achild` |
| HeapSlots.ParentRoundTrip | adel.h:23-36 | Every non-root slot is `achild` of its parent with its side |
| HeapSlots.ChildInjective | adel.h:23-36 | Distinct (parent, child number) pairs give distinct slots |
| HeapSlots.LevelOfChild | adel.h:23-36 | A child sits one nesting level below its parent |
| HeapSlots.LevelBounds | adel.h:23-36 | Level n holds exactly the slots 2^n - 1 to 2^(n+1) - 2 |
| HeapSlots.SlotFitsIffShallow | adel.h:29-36 | A slot fits a table of `1 << depth` records iff its task is nested fewer than `depth` levels deep, or is the first slot of level `depth` |
| Records.Wrap16 | adel.h:17-18 | Storing into a `uint16_t` keeps every value below 65536 unchanged |
| Records.Machine.SetLine | adel.h:39 | Writing a record's `line` changes that field of that record only; every other record and the cursor stay |
| Macros.DelayStep | adel.h:112-116 | `adelay` stores its label and the 16-bit deadline `now + t` on arrival only, suspends iff the clock is below the stored deadline, changes nothing else and runs no child |
| Macros.AndThenStep | adel.h:125-131 | `andthen` resets only the child's `line`, on arrival only; on every pass it points the cursor at slot 2i+1 and runs the child there; it suspends iff the child returned CONT |
| Macros.AwaitStep | adel.h:136-139 | `await` saves its label and suspends iff the condition is false |
| Macros.DoUntilStep | adel.h:145-150 | `adountil` stores the 16-bit deadline on arrival only, runs its child in the slot the cursor already names, and suspends iff the child returned CONT and the clock is below the deadline |
| Macros.ForkStep | adel.h:158-166 | The shared prefix of `aboth`/`auntileither` saves the label, resets both child lines on arrival only, changes no other record, and leaves the cursor at 2i+2, the slot written last |
| Macros.BothStep | adel.h:158-168 | `aboth` runs slot 2i+1 and then slot 2i+2, and suspends iff at least one child returned CONT |
| Macros.UntilEitherStep | adel.h:183-193 | `auntileither` suspends iff both children returned CONT; otherwise the following conditional is true iff the first child returned DONE |
| Macros.ReturnStep | adel.h:212-214 | `areturn` stores the truncated `ADEL_FINALLY` and reports CONT |
| Macros.EndStep | adel.h:89-93 | `aend` stores the truncated `ADEL_FINALLY` and reports DONE |
| Macros.DelayHoldsForDuration | adel.h:112-116 | Without wrap-around, a delay entered at `start` holds on a later pass iff the clock is below `start + t`, and resuming it changes nothing |
| Macros.DelayWrapDoesNotWait | adel.h:112-116 | A delay of at most 65536 ms whose end passes a multiple of 65536 ms falls through at once |
| Macros.DoUntilRunsInOwnSlot | adel.h:145-150 | Whether the pass arrives at or resumes the `adountil`, while the cursor still names the caller (no earlier macro of the pass moved it) `adountil` runs its child in the caller's own slot |
| Tasks.DoUntilResumeRunsInOwnSlot | adel.h:145-150 | A dispatch whose record holds the label of an `adountil` resumes there and runs the `adountil`'s child first, in the caller's own slot |
| Macros.UntilEitherTies | adel.h:183-193 | When both children finish in one pass, the first wins; a first child returning NONE selects the second arm |
| Tasks.Find | adel.h:86-87 | The `switch` lands on a `case` carrying the saved line, and on none iff no macro has that label |
| Tasks.JumpFor | adel.h:82-93 | Line 0 starts the body; a macro's label resumes that macro; any other line, the stored `ADEL_FINALLY` included, goes to `aend` |
| Tasks.StepOf | adel.h:108-193 | Every macro leaves its own label saved, changes only its own record and its child records, and a resumed `adelay`, `await` or `adountil` changes nothing |
| Tasks.Run | adel.h:82-214 | A pass reports DONE or CONT, never NONE; DONE leaves the record finished; CONT leaves it finished or at a label of the body; only the task's own record and its child records change |
| Tasks.After | adel.h:112-193 | After a macro has run, the pass ends with CONT if the macro suspended and otherwise continues, with the same guarantees as `Run` |
| Tasks.RunAt | adel.h:112-193 | A pass through a macro stops there with CONT when the macro suspends, and otherwise goes on at the next statement with the macro's machine |
| Tasks.Tick | adel.h:74-93 | One dispatch gives the same guarantees as `Run` |
| Tasks.FinishedDispatchIsIdempotent | adel.h:86-93 | For a function with no macro on line 34463, re-dispatching a finished record reports DONE, runs no child and changes nothing but the cursor |
| Tasks.AndThenMovesDoUntilChild | adel.h:125-150 | For `andthen(f); adountil(5, g);` on a fresh record with `f` reporting DONE, both children run in slot 2i+1: the `andthen` moved the cursor and `adountil` does not move it back. This needs `f` to dispatch no child of its own in that pass, as the model's children never do |
| Tasks.DoUntilChildEndsCaller | adel.h:145-150 | With the cursor on the caller, `adountil` dispatches its child into the caller's slot, and a child without a macro on the same line reports DONE through `aend` and leaves the caller's record finished |
| Tasks.RunAppendReturn | adel.h:212-214 | Running a body that ends in `areturn` gives the result of the same body without it, except that a DONE becomes CONT |
| Tasks.AppendReturn | adel.h:212-214 | Adding a final `areturn` turns a dispatch that runs the body and would report DONE into one that reports CONT with the same machine, and changes no other dispatch |
| Tasks.ReturnAddsOneTick | adel.h:212-214 | Where falling off the body reports DONE, `areturn` reports CONT in that pass and DONE on the next one, with no change in between |
| Tasks.RunShift | adel.h:82-87 | Running a body's tail behind a prefix is running the tail alone |
| Tasks.RunShiftStep | adel.h:82-87 | The step of `RunShift` at one macro |
| Tasks.ResumeSkipsPrefix | adel.h:82-87 | A record saved at a label of the tail resumes there, and no statement before it runs again |
| Tasks.SequenceLaw | adel.h:125-131 | For `andthen(f); andthen(g);` resumed at `f`: while `f` returns CONT only `f` runs and the record stays at its label; otherwise `g` starts in the same pass in the same freshly reset child slot and decides the status |
| Tasks.FindLabel | adel.h:86-87 | With distinct labels, the `switch` finds the macro whose label is saved |
| Tasks.DelayBeforeDeadline | adel.h:112-116 | Resuming a delay before its deadline reports CONT, runs no child and changes nothing but the cursor |
| Tasks.DelayHoldsOnePass | adel.h:112-116 | One dispatch before the deadline reports CONT and leaves the machine as it was |
| Tasks.DelayHoldsAcrossPasses | adel.h:112-116 | Every dispatch before the deadline reports CONT and leaves the machine as it was, so the later dispatches see the same state |
| Tasks.TwoDelaysFirstPass | adel.h:112-116 | The first dispatch of `adelay(50); adelay(30);` at 0 ms saves the first label and the deadline 50 |
| Tasks.TwoDelaysMiddlePass | adel.h:112-116 | At 50 ms the first delay falls through and the second stores the deadline 80 in the same pass |
| Tasks.TwoDelaysLastPass | adel.h:112-116 | At 80 ms the second delay falls through and the dispatch reports DONE |
| Tasks.TwoDelaysSecondHold | adel.h:112-116 | The second delay reports CONT at 75 ms and DONE at 80 ms |
| Tasks.TwoDelaysHandOver | adel.h:112-116 | Dispatches at 50, 75 and 80 ms report CONT, CONT, DONE |
| Tasks.TwoDelaysFirstHold | adel.h:112-116 | Dispatches at 25, 50, 75 and 80 ms report CONT, CONT, CONT, DONE |
| Tasks.TwoDelaysScenario | adel.h:112-116 | Dispatches of `adelay(50); adelay(30);` at 0, 25, 50, 75 and 80 ms report CONT four times and DONE on the last |
| AdelRuntime.Runtime.constructor | adel.h:14-32 | The zero-initialised table holds `Astate()` in each of its `1 << MAX_DEPTH` slots and the cursor is 0 |
| AdelRuntime.Runtime.Delay | adel.h:112-116 | The in-place `adelay` leaves the table and step `DelayStep` gives |
| AdelRuntime.Runtime.AndThen | adel.h:125-131 | The in-place `andthen` leaves the table, cursor and step `AndThenStep` gives |
| AdelRuntime.Runtime.Await | adel.h:136-139 | The in-place `await` leaves the table and step `AwaitStep` gives |
| AdelRuntime.Runtime.DoUntil | adel.h:145-150 | The in-place `adountil` leaves the table and step `DoUntilStep` gives |
| AdelRuntime.Runtime.Fork | adel.h:158-166 | The in-place prefix of `aboth`/`auntileither` leaves the machine `ForkStep` gives |
| AdelRuntime.Runtime.Both | adel.h:158-168 | The in-place `aboth` leaves the machine and step `BothStep` gives |
| AdelRuntime.Runtime.UntilEither | adel.h:183-193 | The in-place `auntileither` leaves the machine and step `UntilEitherStep` gives |
| AdelRuntime.Runtime.Return | adel.h:212-214 | The in-place `areturn` leaves the table and status `ReturnStep` gives |
| AdelRuntime.Runtime.End | adel.h:89-93 | The in-place `aend` leaves the table and status `EndStep` gives |
| AdelRuntime.Runtime.Exec | adel.h:112-193 | Executing any macro in place leaves the state `StepOf` gives |
| AdelRuntime.Runtime.StepAt | adel.h:112-193 | Executing the macro at a position of the body leaves its own label saved, and the rest of the pass goes on as `After` says |
| AdelRuntime.Runtime.RunFrom | adel.h:82-214 | Executing the body in place from a position gives the status, state and child slots `Run` gives |
| AdelRuntime.Runtime.Dispatch | adel.h:74-93 | One dispatch in place gives the status, state and child slots `Tick` gives |
| ArTable.AdelStack.constructor | adel.cpp:7-14 | Both pointer tables start with every slot null |
| ArTable.AdelStack.Zero | adel.cpp:24 | `memset` clears the first `n` bytes and leaves the rest |
| ArTable.AdelStack.InitAr | adel.cpp:17-27 | The returned record is `ars[index]` and `stack[index]`; it is newly allocated with `size` bytes iff the slot was empty, otherwise the old one; its first `size` bytes are 0; no other slot of either table changes; the tables stay consistent |
| ArTable.AdelStack.InitArTwice | adel.cpp:19-25 | Two calls on one slot return the same record, cleared by the second call |

## Left out

- `millis()` is a parameter. One pass reads the clock once, so the two
  reads in a delay that is arrived at are taken to be equal.
- The code of child functions and `await` conditions is not modelled. Their
  results are inputs. Their effects on the table and on the cursor are not
  modelled at all, neither as inputs nor otherwise: the records of the
  children's own subtrees, and the cursor writes of the children's own
  macros, are dropped. `Tasks.Run` and `AdelRuntime.Runtime.RunFrom`
  therefore state only what the parent's macros write.
- Macros.DoUntilStep, Tasks.StepOf, Tasks.Run: every Adel function leaves
  `adel_current` at the last slot it dispatched (adel.h:129, 163-165,
  188-190), and nothing restores it. The model's cursor after an `andthen`,
  `aboth` or `auntileither` reflects only the parent's own writes, so the
  slot in which a later `adountil` runs its child is the one the parent
  wrote last (for `andthen(f); adountil(t, g);`, slot 2i+1), whereas in
  the source it is wherever `f`'s own last dispatch left the cursor. Nor
  does the model apply the child's `aend` write into the caller's record
  when `adountil` runs its child in the caller's slot: there `StepOf` and
  `Run` keep the `adountil`'s label saved, while the source leaves the
  record finished. `Tasks.DoUntilChildEndsCaller` states that effect
  separately.
- Labels 0, 34463 (99999 mod 65536) and 65536 or more are excluded by the
  type `Records.Label`. In the source, a macro on line 34463 shares its
  stored value with `ADEL_FINALLY`, so a finished record resumes into that
  macro instead of going to `aend`, and `Tasks.FinishedDispatchIsIdempotent`
  does not hold for such a function. A macro on line 65536 or more stores its
  line mod 65536. On line 65536 exactly that is 0, so resuming it lands on
  `case 0` (adel.h:87) and restarts the body. Otherwise, unless the
  truncated value is another macro's line, it matches no `case`, so resuming
  it goes to `aend` and the task ends early. A macro on line 0 cannot occur.
- `astart` and the Arduino `loop()` driver are left out, because they are
  glue code. `Tasks.Tick` and `AdelRuntime.Runtime.Dispatch` begin with the
  caller's cursor write, which is what `astart` and the child calls do.
- `afor` (adel.h:200-204) is left out, because its body refers to an
  undefined `t` and ignores its arguments.
- `afinally` (adel.h:100-106) is left out. Its `case ADEL_FINALLY` repeats the
  one `aend` places, so a function using both does not compile.
- The field `i` of `Astate` is declared with the unknown type `uint16_5`. It
  is kept as an unused 16-bit field.
- `__LINE__` and the `switch` are modelled, not expanded. Labels are
  distinct natural numbers, and a function body is a straight sequence of
  macros. User code between macros, and the two arms of the conditional
  after `auntileither`, are not modelled beyond the branch they select.
  In C the `if (f_status.done())` that ends the macro (adel.h:193) governs
  only the statement written after it. An `UntilEither` statement stands
  for the macro together with that whole `if … else …`, so the next
  statement of the body is the one after the conditional, and it is
  always reached with `Arrive`.
- Tasks.SequenceLaw: stated for a function resumed at its first `andthen`.
  The first pass of a fresh record is covered by `Run` and `RunAt`.
- Overflowing a table is left out. A child slot past `1 << MAX_DEPTH` is
  not checked by the source. The model makes it a precondition
  (`Tasks.SlotsFit`), and `HeapSlots.SlotFitsIffShallow` says which tasks
  satisfy it.
- ArTable.AdelStack.InitAr: `malloc` failure is not modelled. Reusing a
  record with a larger `size` than it was allocated with makes `memset`
  write past its end; the model excludes that case by a precondition. The
  bytes past `size` of a reused record keep their old values.
- `AdelStack::current` is kept as a field but nothing in adel.cpp reads it.
