/** The value space of the linear Lisp machine: the atoms Null and Symbol and the
    mutable two-slot Pair, plus the error signals the machine raises. */
module LispValues {

  datatype Option<+T> = None | Some(value: T)

  /** A Pair cell. Its two slots are overwritten in place by swapFirst and swapSecond,
      so a cell has an identity: two registers can, in principle, refer to the same one. */
  class PairCell {
    var val1: Value
    var val2: Value

    constructor (v1: Value, v2: Value)
      ensures val1 == v1 && val2 == v2
    {
      val1 := v1;
      val2 := v2;
    }

    /** The content of one slot. */
    function Get(s: Slot): Value
      reads this
    {
      match s
      case First => val1
      case Second => val2
    }
  }

  /** Names the slot `val1` (First) or `val2` (Second) of a pair cell. */
  datatype Slot = First | Second

  /** Null is the single null atom; a Symbol is compared by its identifier;
      a Pair refers to a mutable cell. */
  datatype Value = Null | Symbol(name: string) | Pair(cell: PairCell)
  {
    /** Atoms are Null and Symbol: everything that is not a Pair. */
    predicate IsAtom() { !Pair? }
  }

  /** The failures the machine signals. Every one is raised before any state changes. */
  datatype Error =
    | RegisterNotFound     // a named register is not in the register file
    | IdenticalRegisters   // swapFirst / swapSecond given the same register twice
    | TypeMismatch         // an atom was required and a pair found, or the reverse
    | InvalidArgument      // assignSymbol given no symbol
    | InvalidState         // pop without a null first register and a pair second register

  /** The outcome of a query. */
  datatype Result<+T> = Ok(value: T) | Err(error: Error)

  /** The outcome of an instruction that changes the machine. */
  datatype Outcome = Done | Failed(error: Error)
}
