/** The register machine of linear Lisp: a register file mapping identifiers of an
    embedder-chosen type I to values, and the primitive instruction set over it. */
module LinearLispMachine {
  import opened LispValues

  /** A place that can hold a value: a register, or one slot of a pair cell. */
  datatype Loc<I> = Reg(id: I) | InSlot(cell: PairCell, slot: Slot)

  /** Records that location `l` now owns the cell of `v`, when `v` is a pair. */
  ghost function Claim<I>(owner: map<PairCell, Loc<I>>, v: Value, l: Loc<I>): map<PairCell, Loc<I>>
  {
    if v.Pair? then owner[v.cell := l] else owner
  }

  class Machine<I(==)> {
    /** The register file. */
    var registers: map<I, Value>
    /** For every live pair cell, the one location that refers to it. */
    ghost var owner: map<PairCell, Loc<I>>

    /** Baker's linearity invariant: each pair held by a register or by a slot of a live
        cell is live and is owned by exactly that location, so no cell is referred to
        from two places. Atoms may be shared freely. */
    ghost predicate Linear()
      reads this, owner.Keys
    {
      (forall r | r in registers && registers[r].Pair? ::
         registers[r].cell in owner && owner[registers[r].cell] == Reg(r))
      && (forall c, s | c in owner && c.Get(s).Pair? ::
         c.Get(s).cell in owner && owner[c.Get(s).cell] == InSlot(c, s))
    }

    /** The cell held by register `r`, if `r` holds a pair. */
    function HeldCell(r: I): set<PairCell>
      reads this
    {
      if r in registers && registers[r].Pair? then {registers[r].cell} else {}
    }

    /** A machine with an empty register file. */
    constructor ()
      ensures registers == map[] && owner == map[]
      ensures Linear()
    {
      registers := map[];
      owner := map[];
    }

    /** Adds register `r`, holding Null. The source has no allocation instruction;
        this is the minimal one needed to put registers into the file. */
    method Allocate(r: I)
      requires r !in registers
      modifies this
      ensures registers == old(registers)[r := Null] && owner == old(owner)
      ensures old(Linear()) ==> Linear()
    {
      registers := registers[r := Null];
    }

    /** swap: exchanges the whole contents of two registers, whatever they hold. */
    method Swap(r1: I, r2: I) returns (out: Outcome)
      modifies this
      ensures out == if r1 in old(registers) && r2 in old(registers) then Done else Failed(RegisterNotFound)
      ensures out.Failed? ==> unchanged(this)
      ensures out.Done? ==> registers == old(registers)[r1 := old(registers)[r2]][r2 := old(registers)[r1]]
      ensures out.Done? && old(Linear()) ==> Linear()
    {
      if r1 !in registers || r2 !in registers {
        return Failed(RegisterNotFound);
      }
      var temp := registers[r1];
      registers := registers[r1 := registers[r2]];
      registers := registers[r2 := temp];
      owner := Claim(Claim(owner, registers[r1], Reg(r1)), registers[r2], Reg(r2));
      return Done;
    }

    /** swapFirst: exchanges the content of `r1` with slot val2 (the SECOND slot) of the
        pair held by `r2`; the pair cell is updated in place. */
    method SwapFirst(r1: I, r2: I) returns (out: Outcome)
      modifies this, HeldCell(r2)
      ensures r1 !in old(registers) || r2 !in old(registers) ==> out == Failed(RegisterNotFound)
      ensures r1 in old(registers) && r2 in old(registers) && r1 == r2 ==> out == Failed(IdenticalRegisters)
      ensures r1 in old(registers) && r2 in old(registers) && r1 != r2 && old(registers[r2]).IsAtom() ==>
                out == Failed(TypeMismatch)
      ensures r1 in old(registers) && r2 in old(registers) && r1 != r2 && old(registers[r2]).Pair? ==> out == Done
      ensures out.Failed? ==> unchanged(this) && unchanged(old(HeldCell(r2)))
      ensures out.Done? ==>
                r1 in old(registers) && r2 in old(registers) && r1 != r2 && old(registers[r2]).Pair? &&
                var c := old(registers[r2]).cell;
                registers == old(registers)[r1 := old(c.val2)] &&
                c.val2 == old(registers[r1]) && c.val1 == old(c.val1)
      ensures out.Done? && old(Linear()) ==> Linear()
    {
      if r1 !in registers || r2 !in registers {
        return Failed(RegisterNotFound);
      }
      if r1 == r2 {
        return Failed(IdenticalRegisters);
      }
      if !registers[r2].Pair? {
        return Failed(TypeMismatch);
      }
      var pair := registers[r2].cell;
      var temp := registers[r1];
      ghost var linear := Linear();
      ghost var moved := pair.val2;
      ghost var kept := pair.Get(First);
      ghost var before := owner;
      registers := registers[r1 := pair.val2];
      pair.val2 := temp;
      owner := Claim(Claim(owner, registers[r1], Reg(r1)), temp, InSlot(pair, Second));
      if linear {
        forall c, s | c in owner && c.Get(s).Pair?
          ensures c.Get(s).cell in owner && owner[c.Get(s).cell] == InSlot(c, s)
        {
          if c == pair && s == Second {
          } else if c == pair {
            assert c.Get(s) == kept && before[kept.cell] == InSlot(pair, First);
          } else {
            assert c in before;
          }
        }
      }
      return Done;
    }

    /** swapSecond: exchanges the content of `r1` with slot val1 (the FIRST slot) of the
        pair held by `r2`; the pair cell is updated in place. */
    method SwapSecond(r1: I, r2: I) returns (out: Outcome)
      modifies this, HeldCell(r2)
      ensures r1 !in old(registers) || r2 !in old(registers) ==> out == Failed(RegisterNotFound)
      ensures r1 in old(registers) && r2 in old(registers) && r1 == r2 ==> out == Failed(IdenticalRegisters)
      ensures r1 in old(registers) && r2 in old(registers) && r1 != r2 && old(registers[r2]).IsAtom() ==>
                out == Failed(TypeMismatch)
      ensures r1 in old(registers) && r2 in old(registers) && r1 != r2 && old(registers[r2]).Pair? ==> out == Done
      ensures out.Failed? ==> unchanged(this) && unchanged(old(HeldCell(r2)))
      ensures out.Done? ==>
                r1 in old(registers) && r2 in old(registers) && r1 != r2 && old(registers[r2]).Pair? &&
                var c := old(registers[r2]).cell;
                registers == old(registers)[r1 := old(c.val1)] &&
                c.val1 == old(registers[r1]) && c.val2 == old(c.val2)
      ensures out.Done? && old(Linear()) ==> Linear()
    {
      if r1 !in registers || r2 !in registers {
        return Failed(RegisterNotFound);
      }
      if r1 == r2 {
        return Failed(IdenticalRegisters);
      }
      if !registers[r2].Pair? {
        return Failed(TypeMismatch);
      }
      var pair := registers[r2].cell;
      var temp := registers[r1];
      ghost var linear := Linear();
      ghost var moved := pair.val1;
      ghost var kept := pair.Get(Second);
      ghost var before := owner;
      registers := registers[r1 := pair.val1];
      pair.val1 := temp;
      owner := Claim(Claim(owner, registers[r1], Reg(r1)), temp, InSlot(pair, First));
      if linear {
        forall c, s | c in owner && c.Get(s).Pair?
          ensures c.Get(s).cell in owner && owner[c.Get(s).cell] == InSlot(c, s)
        {
          if c == pair && s == First {
          } else if c == pair {
            assert c.Get(s) == kept && before[kept.cell] == InSlot(pair, Second);
          } else {
            assert c in before;
          }
        }
      }
      return Done;
    }

    /** isNull: whether register `r` holds Null. */
    function IsNull(r: I): (res: Result<bool>)
      reads this
      ensures res.Ok? <==> r in registers
      ensures res.Err? ==> res.error == RegisterNotFound
      ensures res.Ok? ==> (res.value <==> registers[r] == Null)
    {
      if r !in registers then Err(RegisterNotFound)
      else Ok(registers[r].Null?)
    }

    /** isAtom: whether register `r` holds an atom, that is, anything but a pair. */
    function IsAtom(r: I): (res: Result<bool>)
      reads this
      ensures res.Ok? <==> r in registers
      ensures res.Err? ==> res.error == RegisterNotFound
      ensures res.Ok? ==> (res.value <==> !registers[r].Pair?)
    {
      if r !in registers then Err(RegisterNotFound)
      else Ok(registers[r].IsAtom())
    }

    /** isSymbol: the interface's default method, "an atom and not null"; it is true
        exactly when `r` holds a Symbol. */
    function IsSymbol(r: I): (res: Result<bool>)
      reads this
      ensures res.Ok? <==> r in registers
      ensures res.Err? ==> res.error == RegisterNotFound
      ensures res.Ok? ==> (res.value <==> registers[r].Symbol?)
    {
      if r !in registers then Err(RegisterNotFound)
      else Ok(IsAtom(r) == Ok(true) && IsNull(r) == Ok(false))
    }

    /** eq, with the meaning its interface documents: defined on two atom-holding
        registers, true when both hold Null or both hold symbols with equal identifiers. */
    function Eq(r1: I, r2: I): (res: Result<bool>)
      reads this
      ensures r1 !in registers || r2 !in registers ==> res == Err(RegisterNotFound)
      ensures res.Ok? <==>
                r1 in registers && r2 in registers && registers[r1].IsAtom() && registers[r2].IsAtom()
      ensures res.Err? && r1 in registers && r2 in registers ==> res.error == TypeMismatch
      ensures res.Ok? ==>
                (res.value <==>
                   (registers[r1] == Null && registers[r2] == Null) ||
                   (registers[r1].Symbol? && registers[r2].Symbol? && registers[r1].name == registers[r2].name))
    {
      if r1 !in registers || r2 !in registers then Err(RegisterNotFound)
      else if !registers[r1].IsAtom() || !registers[r2].IsAtom() then Err(TypeMismatch)
      else Ok(registers[r1] == registers[r2])
    }

    /** eq as the implementation writes it: after the same checks it applies its
        type tests to the register identifiers rather than to their contents. An
        identifier of the generic type I is never a Null or Symbol value, so every
        comparison that passes the checks answers false. */
    function EqAsWritten(r1: I, r2: I): (res: Result<bool>)
      reads this
      ensures r1 !in registers || r2 !in registers ==> res == Err(RegisterNotFound)
      ensures res.Ok? <==>
                r1 in registers && r2 in registers && registers[r1].IsAtom() && registers[r2].IsAtom()
      ensures res.Err? && r1 in registers && r2 in registers ==> res.error == TypeMismatch
      ensures res.Ok? ==> !res.value
    {
      if r1 !in registers || r2 !in registers then Err(RegisterNotFound)
      else if !registers[r1].IsAtom() || !registers[r2].IsAtom() then Err(TypeMismatch)
      else Ok(false)
    }

    /** assignSymbol, with the guard its interface documents: the register must hold an
        atom beforehand, and afterwards holds the symbol. A missing symbol models the
        null argument the implementation rejects. */
    method AssignSymbol(r: I, symbol: Option<string>) returns (out: Outcome)
      modifies this
      ensures r !in old(registers) ==> out == Failed(RegisterNotFound)
      ensures r in old(registers) && symbol.None? ==> out == Failed(InvalidArgument)
      ensures r in old(registers) && symbol.Some? && old(registers[r]).Pair? ==> out == Failed(TypeMismatch)
      ensures r in old(registers) && symbol.Some? && old(registers[r]).IsAtom() ==> out == Done
      ensures out.Failed? ==> unchanged(this)
      ensures out.Done? ==>
                r in old(registers) && symbol.Some? && old(registers[r]).IsAtom() &&
                registers == old(registers)[r := Symbol(symbol.value)] && owner == old(owner)
      ensures old(Linear()) ==> Linear()
    {
      if r !in registers {
        return Failed(RegisterNotFound);
      }
      if symbol.None? {
        return Failed(InvalidArgument);
      }
      if !registers[r].IsAtom() {
        return Failed(TypeMismatch);
      }
      registers := registers[r := Symbol(symbol.value)];
      return Done;
    }

    /** assignSymbol as the implementation writes it: its atomicity guard is inverted,
        so it rejects every atom-holding register and overwrites only a pair, whose cell
        is then dropped. */
    method AssignSymbolAsWritten(r: I, symbol: Option<string>) returns (out: Outcome)
      modifies this
      ensures r !in old(registers) ==> out == Failed(RegisterNotFound)
      ensures r in old(registers) && symbol.None? ==> out == Failed(InvalidArgument)
      ensures r in old(registers) && symbol.Some? && old(registers[r]).IsAtom() ==> out == Failed(TypeMismatch)
      ensures r in old(registers) && symbol.Some? && old(registers[r]).Pair? ==> out == Done
      ensures out.Failed? ==> unchanged(this)
      ensures out.Done? ==>
                r in old(registers) && symbol.Some? && old(registers[r]).Pair? &&
                registers == old(registers)[r := Symbol(symbol.value)] && owner == old(owner)
      ensures old(Linear()) ==> Linear()
    {
      if r !in registers {
        return Failed(RegisterNotFound);
      }
      if symbol.None? {
        return Failed(InvalidArgument);
      }
      if registers[r].IsAtom() {
        return Failed(TypeMismatch);
      }
      registers := registers[r := Symbol(symbol.value)];
      return Done;
    }

    /** assignNull: overwrites an atom-holding register with Null. */
    method AssignNull(r: I) returns (out: Outcome)
      modifies this
      ensures r !in old(registers) ==> out == Failed(RegisterNotFound)
      ensures r in old(registers) && old(registers[r]).Pair? ==> out == Failed(TypeMismatch)
      ensures r in old(registers) && old(registers[r]).IsAtom() ==> out == Done
      ensures out.Failed? ==> unchanged(this)
      ensures out.Done? ==>
                r in old(registers) && old(registers[r]).IsAtom() &&
                registers == old(registers)[r := Null] && owner == old(owner)
      ensures old(Linear()) ==> Linear()
    {
      if r !in registers {
        return Failed(RegisterNotFound);
      }
      if !registers[r].IsAtom() {
        return Failed(TypeMismatch);
      }
      registers := registers[r := Null];
      return Done;
    }

    /** assignRegister: copies the atom of `r2` into `r1`; both must hold atoms, so no
        pair is ever duplicated. */
    method AssignRegister(r1: I, r2: I) returns (out: Outcome)
      modifies this
      ensures r1 !in old(registers) || r2 !in old(registers) ==> out == Failed(RegisterNotFound)
      ensures r1 in old(registers) && r2 in old(registers) && (old(registers[r1]).Pair? || old(registers[r2]).Pair?) ==>
                out == Failed(TypeMismatch)
      ensures r1 in old(registers) && r2 in old(registers) && old(registers[r1]).IsAtom() && old(registers[r2]).IsAtom() ==>
                out == Done
      ensures out.Failed? ==> unchanged(this)
      ensures out.Done? ==>
                r1 in old(registers) && r2 in old(registers) &&
                old(registers[r1]).IsAtom() && old(registers[r2]).IsAtom() &&
                registers == old(registers)[r1 := old(registers[r2])] && owner == old(owner)
      ensures old(Linear()) ==> Linear()
    {
      if r1 !in registers || r2 !in registers {
        return Failed(RegisterNotFound);
      }
      if !registers[r1].IsAtom() || !registers[r2].IsAtom() {
        return Failed(TypeMismatch);
      }
      registers := registers[r1 := registers[r2]];
      return Done;
    }

    /** A cell whose two slots hold the same pair breaks linearity. */
    lemma SharedSlotsNotLinear(c: PairCell)
      requires c in owner && c.val1.Pair? && c.val1 == c.val2
      ensures !Linear()
    {
      assert c.Get(First) == c.Get(Second);
    }

    /** cons: allocates a new pair cell holding the old contents of `r1` (slot val1) and
        `r2` (slot val2); `r1` becomes Null and `r2` the new pair. Nothing stops
        `r1 == r2`: then both slots receive the same value, and when that value is a
        pair, linearity is lost. */
    method Cons(r1: I, r2: I) returns (out: Outcome)
      modifies this
      ensures out == if r1 in old(registers) && r2 in old(registers) then Done else Failed(RegisterNotFound)
      ensures out.Failed? ==> unchanged(this)
      ensures out.Done? ==>
                r1 in old(registers) && r2 in old(registers) &&
                r2 in registers && registers[r2].Pair? && fresh(registers[r2].cell) &&
                registers[r2].cell.val1 == old(registers[r1]) && registers[r2].cell.val2 == old(registers[r2]) &&
                registers == old(registers)[r1 := Null][r2 := registers[r2]]
      ensures out.Done? && old(Linear()) && (r1 != r2 || old(registers[r1]).IsAtom()) ==> Linear()
      ensures out.Done? && r1 == r2 && old(registers[r1]).Pair? ==> !Linear()
    {
      if r1 !in registers || r2 !in registers {
        return Failed(RegisterNotFound);
      }
      var v1, v2 := registers[r1], registers[r2];
      var newPair := new PairCell(v1, v2);
      registers := registers[r1 := Null];
      registers := registers[r2 := Pair(newPair)];
      owner := Claim(Claim(owner, v1, InSlot(newPair, First)), v2, InSlot(newPair, Second))[newPair := Reg(r2)];
      if r1 == r2 && v1.Pair? {
        SharedSlotsNotLinear(newPair);
      }
      return Done;
    }

    /** pop: when `r1` holds Null and `r2` a pair, moves the pair's slot val1 into `r1`
        and slot val2 into `r2`; the cell itself is dropped. */
    method Pop(r1: I, r2: I) returns (out: Outcome)
      modifies this
      ensures r1 !in old(registers) || r2 !in old(registers) ==> out == Failed(RegisterNotFound)
      ensures (r1 in old(registers) && r2 in old(registers) &&
               (old(registers[r1]) != Null || old(registers[r2]).IsAtom())) ==> out == Failed(InvalidState)
      ensures r1 in old(registers) && r2 in old(registers) && old(registers[r1]) == Null && old(registers[r2]).Pair? ==>
                out == Done
      ensures out.Failed? ==> unchanged(this)
      ensures out.Done? ==>
                r1 in old(registers) && r2 in old(registers) &&
                old(registers[r1]) == Null && old(registers[r2]).Pair? &&
                var c := old(registers[r2]).cell;
                registers == old(registers)[r1 := c.val1][r2 := c.val2]
      ensures out.Done? && old(Linear()) ==> Linear() && old(registers[r2]).cell !in owner
    {
      if r1 !in registers || r2 !in registers {
        return Failed(RegisterNotFound);
      }
      if registers[r1] != Null || registers[r2].IsAtom() {
        return Failed(InvalidState);
      }
      var pair := registers[r2].cell;
      ghost var before := owner;
      if Linear() {
        assert pair.Get(First).Pair? ==> before[pair.val1.cell] == InSlot(pair, First);
        assert pair.Get(Second).Pair? ==> before[pair.val2.cell] == InSlot(pair, Second);
      }
      registers := registers[r1 := pair.val1];
      registers := registers[r2 := pair.val2];
      owner := Claim(Claim(owner - {pair}, pair.val1, Reg(r1)), pair.val2, Reg(r2));
      if old(Linear()) {
        forall c, s | c in owner && c.Get(s).Pair?
          ensures c.Get(s).cell in owner && owner[c.Get(s).cell] == InSlot(c, s)
        {
          assert c in before && c != pair;
          assert before[c.Get(s).cell] == InSlot(c, s);
        }
      }
      return Done;
    }
  }
}
