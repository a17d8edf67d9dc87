/** Properties that relate several instructions: the swaps are involutions, pop
    undoes cons, and the concrete cons/pop scenario; plus the two places where the
    implementation departs from its documented contract, and the one place where the
    instruction set itself lets a pair be duplicated. */
module MachineProperties {
  import opened LispValues
  import opened LinearLispMachine

  /** swap applied twice with the same registers restores the register file. */
  method SwapTwice<I(==)>(m: Machine<I>, r1: I, r2: I) returns (first: Outcome, second: Outcome)
    modifies m
    ensures first == second
    ensures m.registers == old(m.registers)
    ensures old(m.Linear()) ==> m.Linear()
  {
    first := m.Swap(r1, r2);
    second := m.Swap(r1, r2);
  }

  /** swapFirst applied twice with the same registers restores both the register
      file and the pair cell it exchanged with. */
  method SwapFirstTwice<I(==)>(m: Machine<I>, r1: I, r2: I) returns (first: Outcome, second: Outcome)
    modifies m, m.HeldCell(r2)
    ensures first == second
    ensures m.registers == old(m.registers)
    ensures forall c | c in old(m.HeldCell(r2)) :: c.val1 == old(c.val1) && c.val2 == old(c.val2)
    ensures old(m.Linear()) ==> m.Linear()
  {
    first := m.SwapFirst(r1, r2);
    second := m.SwapFirst(r1, r2);
  }

  /** swapSecond applied twice with the same registers restores both the register
      file and the pair cell it exchanged with. */
  method SwapSecondTwice<I(==)>(m: Machine<I>, r1: I, r2: I) returns (first: Outcome, second: Outcome)
    modifies m, m.HeldCell(r2)
    ensures first == second
    ensures m.registers == old(m.registers)
    ensures forall c | c in old(m.HeldCell(r2)) :: c.val1 == old(c.val1) && c.val2 == old(c.val2)
    ensures old(m.Linear()) ==> m.Linear()
  {
    first := m.SwapSecond(r1, r2);
    second := m.SwapSecond(r1, r2);
  }

  /** cons followed by pop on two distinct registers restores the register file; in
      between, the first register is null and the second holds a pair. On one register
      the pop is refused, because cons left a pair where pop wants Null. */
  method ConsThenPop<I(==)>(m: Machine<I>, r1: I, r2: I)
      returns (cons: Outcome, midIsNull: Result<bool>, midIsAtom: Result<bool>, pop: Outcome)
    modifies m
    ensures cons == if r1 in old(m.registers) && r2 in old(m.registers) then Done else Failed(RegisterNotFound)
    ensures cons.Done? && r1 != r2 ==>
              midIsNull == Ok(true) && midIsAtom == Ok(false) && pop == Done &&
              m.registers == old(m.registers)
    ensures cons.Done? && r1 == r2 ==> pop == Failed(InvalidState)
    ensures old(m.Linear()) && r1 != r2 ==> m.Linear()
  {
    cons := m.Cons(r1, r2);
    midIsNull := m.IsNull(r1);
    midIsAtom := m.IsAtom(r2);
    pop := m.Pop(r1, r2);
  }

  /** The worked example: r1 holds the symbol a and r2 the symbol b; cons leaves r1
      null and r2 a pair (a, b); pop brings back a and b. */
  method ConsPopScenario() returns (consNull: Value, consPair: Value, pop1: Value, pop2: Value)
    ensures consNull == Null
    ensures consPair.Pair? && consPair.cell.val1 == Symbol("a") && consPair.cell.val2 == Symbol("b")
    ensures pop1 == Symbol("a") && pop2 == Symbol("b")
  {
    var m := new Machine<string>();
    m.Allocate("r1");
    m.Allocate("r2");
    var _ := m.AssignSymbol("r1", Some("a"));
    var _ := m.AssignSymbol("r2", Some("b"));
    var _ := m.Cons("r1", "r2");
    consNull, consPair := m.registers["r1"], m.registers["r2"];
    var _ := m.Pop("r1", "r2");
    pop1, pop2 := m.registers["r1"], m.registers["r2"];
  }

  /** cons with the same register twice, when that register holds a pair P, builds a
      cell whose two slots both refer to P: the one way the instruction set duplicates
      a pair, after which the machine is no longer linear. */
  method ConsSameRegisterScenario() returns (out: Outcome, shared: bool)
    ensures out == Done && shared
  {
    var m := new Machine<string>();
    m.Allocate("a");
    m.Allocate("b");
    var _ := m.Cons("a", "b");
    out := m.Cons("b", "b");
    var c := m.registers["b"].cell;
    shared := c.val1.Pair? && c.val1 == c.val2;
    assert !m.Linear();
  }

  /** Exactly one of "holds Null", "holds a symbol" and "holds a pair" is reported for
      an allocated register. */
  lemma ContentKinds<I>(m: Machine<I>, r: I)
    requires r in m.registers
    ensures m.IsNull(r) == Ok(true) ==> m.IsAtom(r) == Ok(true) && m.IsSymbol(r) == Ok(false)
    ensures m.IsSymbol(r) == Ok(true) ==> m.IsAtom(r) == Ok(true) && m.IsNull(r) == Ok(false)
    ensures m.IsAtom(r) == Ok(false) ==> m.IsNull(r) == Ok(false) && m.IsSymbol(r) == Ok(false)
    ensures m.IsNull(r) == Ok(true) || m.IsSymbol(r) == Ok(true) || m.IsAtom(r) == Ok(false)
  {
  }

  /** The as-written eq answers false even for two registers holding the same atom,
      where the documented eq answers true. */
  lemma EqAsWrittenMissesEqualAtoms<I>(m: Machine<I>, r1: I, r2: I)
    requires r1 in m.registers && r2 in m.registers
    requires m.registers[r1].IsAtom() && m.registers[r1] == m.registers[r2]
    ensures m.Eq(r1, r2) == Ok(true)
    ensures m.EqAsWritten(r1, r2) == Ok(false)
  {
  }

  /** The documented eq is an equivalence on atoms: reflexive and symmetric. */
  lemma EqReflexiveSymmetric<I>(m: Machine<I>, r1: I, r2: I)
    requires r1 in m.registers && r2 in m.registers
    ensures m.registers[r1].IsAtom() ==> m.Eq(r1, r1) == Ok(true)
    ensures m.Eq(r1, r2) == m.Eq(r2, r1)
  {
  }

  /** On a register holding an atom, the documented assignSymbol succeeds and the
      as-written one refuses with a type mismatch. */
  method AssignSymbolOnAtom() returns (documented: Outcome, asWritten: Outcome, value: Value)
    ensures documented == Done && value == Symbol("a")
    ensures asWritten == Failed(TypeMismatch)
  {
    var m := new Machine<string>();
    m.Allocate("r");
    asWritten := m.AssignSymbolAsWritten("r", Some("a"));
    documented := m.AssignSymbol("r", Some("a"));
    value := m.registers["r"];
  }
}
