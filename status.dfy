/** The status every Adel function returns (class `Adel` in adel.h).
 *  The C++ class only wraps the enum `_status`; it is copied by value, so
 *  here the wrapper and the enum are one datatype. */
module AdelStatus {

  /** NONE (never set), DONE (finished), CONT (has more work). */
  datatype Adel = None | Done | Cont {

    /** `done()`: true of DONE, false of NONE and of CONT. */
    function IsDone(): (d: bool)
      ensures d <==> this != None && this != Cont
    {
      this == Done
    }

    /** `cont()`: true of CONT, false of NONE and of DONE. */
    function IsCont(): (c: bool)
      ensures c <==> this != None && this != Done
    {
      this == Cont
    }
  }

  /** The default constructor `Adel()`: a fresh status is NONE, which is
   *  neither done nor continuing. */
  function Default(): (a: Adel)
    ensures !a.IsDone() && !a.IsCont()
  {
    None
  }

  /** The converting constructor `Adel(_status s)`, used by every
   *  `return Adel::DONE` / `return Adel::CONT`. */
  function FromStatus(s: Adel): (a: Adel)
    ensures a.IsDone() <==> s == Done
    ensures a.IsCont() <==> s == Cont
  {
    s
  }

  /** The explicit constructor `Adel(bool b)`: it ignores its argument and
   *  always builds NONE. */
  function FromBool(b: bool): (a: Adel)
    ensures a == Default()
  {
    None
  }

  /** Both arguments of `Adel(bool)` give the same status. */
  lemma FromBoolIgnoresArgument(b: bool)
    ensures FromBool(b) == FromBool(!b) && !FromBool(b).IsDone()
  {
  }

  /** `done()` and `cont()` are never both true, and NONE is neither. */
  lemma DoneExcludesCont(a: Adel)
    ensures !(a.IsDone() && a.IsCont())
    ensures a == None <==> !a.IsDone() && !a.IsCont()
  {
  }
}
