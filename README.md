# Linear Lisp register machine, in Dafny

This project models the linear Lisp register machine of `LinearLispMachineV1Impl`,
whose contract is the interface `LinearLispMachineV1`. It follows Henry Baker's
"linear Lisp". The machine owns a register file that maps identifiers of an
embedder-chosen type `I` to values. A value is Null, a Symbol or a mutable Pair.
The machine offers a small instruction set: `swap`, `swapFirst`, `swapSecond`,
`isNull`, `isAtom`, `isSymbol`, `eq`, `assignSymbol`, `assignNull`,
`assignRegister`, `cons` and `pop`.

Files:

- `values.dfy` (module `LispValues`): the values. Null and Symbol are atoms. A pair is
  `Pair(cell)`, where `cell` is a `PairCell` object with the mutable slots `val1` and
  `val2`. The module also defines the error kinds and the `Result`/`Outcome` types
  that replace the source's exceptions.
- `machine.dfy` (module `LinearLispMachine`): class `Machine<I>`. Its field `registers`
  is a `map<I, Value>`.
  - Each instruction is a method that names its error cases.
  - On failure nothing changes, because the source validates before it mutates.
  - On success the method states the new register file and the new slot contents.
  - `swapFirst`/`swapSecond` update the pair cell in place.
  - The read-only queries are functions.
  - A ghost map `owner` records which location (a register or one slot of one cell)
    refers to each live cell. `Linear()` states Baker's invariant: every pair held
    anywhere is owned by exactly the location that holds it. Every instruction
    preserves it, except `cons(r, r)` on a register that holds a pair.
- `linearity.dfy` (module `Linearity`): what the invariant means for reachability. In
  a linear machine, a cell is reached from one register along one path only. Two
  distinct registers share no cell at any depth, and no cell reachable from a
  register can reach itself.
- `properties.dfy` (module `MachineProperties`): properties that span several
  instructions.
  - Each of the three swaps is an involution.
  - `pop` undoes `cons`.
  - The worked `cons`/`pop` example on the symbols `a` and `b`.
  - The `cons(r, r)` duplication.
  - The two departures from the documented contract listed under Findings.

Where the slot naming and the documentation disagree, the model follows the code.
`swapFirst` exchanges with the pair's `val2`, and `swapSecond` exchanges with `val1`
(`LinearLispMachineV1Impl.java:46-47`, `:61-62`). The interface documents them as
"the first" and "the second" (`LinearLispMachineV1.java:14`, `:21`). This may be a
car/cdr convention, so it is reproduced and not corrected.

`Machine.Allocate` is not an instruction of the source, which has no way to add a
register. It adds one register holding Null, only so that the scenarios can build a
machine. The constructor gives an empty register file, as the source's does.

## Model

| member | source | states |
|---|---|---|
| LinearLispMachine.Machine.constructor | src/main/java/xyz/llamachannel/valinsp/LinearLispMachineV1Impl.java:15-17 | a new machine has an empty register file and is linear |
| LinearLispMachine.Machine.Swap | src/main/java/xyz/llamachannel/valinsp/LinearLispMachineV1Impl.java:19-36 | fails with RegisterNotFound, changing nothing, exactly when a register is missing; otherwise exchanges the two contents whatever they are, leaves every other register alone and keeps linearity |
| LinearLispMachine.Machine.SwapFirst | src/main/java/xyz/llamachannel/valinsp/LinearLispMachineV1Impl.java:39-51 | missing register, then identical registers, then a non-pair second register are refused in that order with nothing changed; otherwise r1 receives the cell's val2, val2 receives the old r1 in place, val1 and other registers are untouched, linearity is kept |
| LinearLispMachine.Machine.SwapSecond | src/main/java/xyz/llamachannel/valinsp/LinearLispMachineV1Impl.java:54-66 | the mirror of SwapFirst on slot val1, with val2 untouched |
| LinearLispMachine.Machine.IsNull | src/main/java/xyz/llamachannel/valinsp/LinearLispMachineV1Impl.java:69-74 | RegisterNotFound for a missing register, otherwise true exactly when the register holds Null |
| LinearLispMachine.Machine.IsAtom | src/main/java/xyz/llamachannel/valinsp/LinearLispMachineV1Impl.java:77-82 | RegisterNotFound for a missing register, otherwise true exactly when the register does not hold a pair |
| LinearLispMachine.Machine.IsSymbol | src/main/java/xyz/llamachannel/valinsp/LinearLispMachineV1.java:71-73 | "atom and not null" is true exactly when the register holds a Symbol |
| LinearLispMachine.Machine.Eq | src/main/java/xyz/llamachannel/valinsp/LinearLispMachineV1.java:43-50 | defined exactly on two present atom-holding registers (RegisterNotFound, else TypeMismatch); true iff both hold Null or both hold symbols with equal identifiers |
| LinearLispMachine.Machine.EqAsWritten | src/main/java/xyz/llamachannel/valinsp/LinearLispMachineV1Impl.java:85-93 | same checks as Eq, but whenever they pass the answer is false, because the type tests look at the identifiers |
| LinearLispMachine.Machine.AssignSymbol | src/main/java/xyz/llamachannel/valinsp/LinearLispMachineV1.java:52-58 | RegisterNotFound, then InvalidArgument for a missing symbol, then TypeMismatch for a pair; on an atom-holding register it writes the symbol and changes nothing else |
| LinearLispMachine.Machine.AssignSymbolAsWritten | src/main/java/xyz/llamachannel/valinsp/LinearLispMachineV1Impl.java:99-110 | the implementation's inverted guard: refuses every atom-holding register and overwrites only a pair |
| LinearLispMachine.Machine.AssignNull | src/main/java/xyz/llamachannel/valinsp/LinearLispMachineV1Impl.java:116-124 | RegisterNotFound, then TypeMismatch for a pair with nothing changed; otherwise the register holds Null and nothing else changes |
| LinearLispMachine.Machine.AssignRegister | src/main/java/xyz/llamachannel/valinsp/LinearLispMachineV1Impl.java:130-136 | RegisterNotFound, then TypeMismatch if either register holds a pair; otherwise r1 holds a copy of r2's atom and r2 and all others are unchanged |
| LinearLispMachine.Machine.SharedSlotsNotLinear | src/main/java/xyz/llamachannel/valinsp/LinearLispMachineV1Impl.java:141-146 | a live cell whose two slots hold the same pair violates linearity |
| LinearLispMachine.Machine.Cons | src/main/java/xyz/llamachannel/valinsp/LinearLispMachineV1Impl.java:141-146 | RegisterNotFound with nothing changed, otherwise a fresh cell holds the old r1 in val1 and the old r2 in val2, r1 becomes Null, r2 the new pair; linearity is kept for distinct registers or an atom, and is lost for cons(r, r) on a pair |
| LinearLispMachine.Machine.Pop | src/main/java/xyz/llamachannel/valinsp/LinearLispMachineV1Impl.java:150-158 | RegisterNotFound, then InvalidState unless r1 holds Null and r2 a pair; otherwise r1 := val1, r2 := val2, the dropped cell is no longer owned and linearity is kept |
| Linearity.PathsUnique | src/main/java/xyz/llamachannel/valinsp/LinearLispMachineV1Impl.java:9-11 | in a linear machine, two walks from registers that reach the same cell start at the same register and follow the same path |
| Linearity.DistinctRegistersDisjoint | src/main/java/xyz/llamachannel/valinsp/LinearLispMachineV1Impl.java:9-11 | two distinct registers of a linear machine never reach the same cell |
| Linearity.NoCycle | src/main/java/xyz/llamachannel/valinsp/LinearLispMachineV1Impl.java:9-11 | a cell reachable from a register of a linear machine reaches itself only along the empty path |
| MachineProperties.SwapTwice | src/main/java/xyz/llamachannel/valinsp/LinearLispMachineV1Impl.java:31-36 | swap twice restores the register file, with both calls giving the same outcome |
| MachineProperties.SwapFirstTwice | src/main/java/xyz/llamachannel/valinsp/LinearLispMachineV1Impl.java:39-51 | swapFirst twice restores the register file and the exchanged cell's slots |
| MachineProperties.SwapSecondTwice | src/main/java/xyz/llamachannel/valinsp/LinearLispMachineV1Impl.java:54-66 | swapSecond twice restores the register file and the exchanged cell's slots |
| MachineProperties.ConsThenPop | src/main/java/xyz/llamachannel/valinsp/LinearLispMachineV1Impl.java:141-158 | on distinct registers, cons then pop restores the register file, with r1 null and r2 non-atomic in between; on one register pop is refused |
| MachineProperties.ConsPopScenario | src/main/java/xyz/llamachannel/valinsp/LinearLispMachineV1Impl.java:141-158 | with r1 = a and r2 = b, cons gives r1 = Null and r2 = (a, b), and pop gives back a and b |
| MachineProperties.ConsSameRegisterScenario | src/main/java/xyz/llamachannel/valinsp/LinearLispMachineV1Impl.java:141-146 | cons(b, b) on a register holding a pair is accepted and builds a cell whose two slots share that pair |
| MachineProperties.ContentKinds | src/main/java/xyz/llamachannel/valinsp/LinearLispMachineV1.java:27-41 | a present register is reported as exactly one of null, symbol and pair |
| MachineProperties.EqAsWrittenMissesEqualAtoms | src/main/java/xyz/llamachannel/valinsp/LinearLispMachineV1Impl.java:90-92 | for two registers holding the same atom, the documented eq is true and the as-written eq is false |
| MachineProperties.EqReflexiveSymmetric | src/main/java/xyz/llamachannel/valinsp/LinearLispMachineV1.java:43-50 | the documented eq is reflexive on atoms and symmetric |
| MachineProperties.AssignSymbolOnAtom | src/main/java/xyz/llamachannel/valinsp/LinearLispMachineV1Impl.java:106-109 | on a Null register the as-written assignSymbol fails with TypeMismatch and the documented one writes the symbol |

## Findings

| source | as written | input that shows it | evidently intended | confidence | as-written member | corrected member |
|---|---|---|---|---|---|---|
| src/main/java/xyz/llamachannel/valinsp/LinearLispMachineV1Impl.java:91-92 | `instanceof` tests on the identifiers `reg1`, `reg2` instead of their contents, so eq is always false | two registers that both hold Null | compare the two atoms held, as in LinearLispMachineV1.java:43-50 | high; not executed | LinearLispMachine.Machine.EqAsWritten | LinearLispMachine.Machine.Eq |
| src/main/java/xyz/llamachannel/valinsp/LinearLispMachineV1Impl.java:106 | throws when the register holds an atom, so only a register holding a pair can receive a symbol (and that pair is dropped) | assignSymbol on a register holding Null | throw when the register holds a pair, as in LinearLispMachineV1.java:52-58 | high; not executed | LinearLispMachine.Machine.AssignSymbolAsWritten | LinearLispMachine.Machine.AssignSymbol |

## Left out

- Exceptions become one `Error` value per failure kind. The source's exception classes and `MessageFormat` messages are not modelled.
- The identity test `reg1 == reg2` in swapFirst/swapSecond is modelled as equality on `I`. Boxed keys that are equal but not identical are not distinguished.
- The `HashMap` becomes a Dafny `map`; hashing is not modelled.
- The `value` package (`LLMNull`, `LLMSymbol`, `LLMPair`) is not part of this model. Null is one value, a symbol is an identifier string compared by equality, and a pair is a `PairCell` object.
- The source's free-list allocation and cell reclamation exist only as TODO comments. A cell dropped by pop or assignSymbol is left to the host.
- Registers can be added only through `Allocate`, which is not in the source. Deallocation is not modelled.
- The null check on the symbol argument of assignSymbol is modelled by `Option`: `None` stands for `null`.
- EqAsWritten: models the identifier type tests as always failing. This holds for any identifier type other than the value classes; an embedder that used the value classes themselves as identifiers would see those tests compare identifiers.
- Linearity is not enforced by the machine, as in the source. The instructions only preserve it when it holds beforehand. `cons(r, r)` can break it.
- Concurrency is not modelled: the machine is single-threaded.
