/** What linearity buys: under the machine's ownership invariant, the pair cells
    reachable from the registers form disjoint trees. A cell is reached from one
    register along one path only, and never from itself. */
module Linearity {
  import opened LispValues
  import opened LinearLispMachine

  /** The value found by walking `path` from `v` through the cells of `live`
      (First steps into slot val1, Second into val2); None when the walk meets an
      atom or leaves `live`. */
  ghost function Follow(v: Value, path: seq<Slot>, live: set<PairCell>): Option<Value>
    reads live
    decreases |path|
  {
    if path == [] then Some(v)
    else
      var up := Follow(v, path[..|path| - 1], live);
      if up.Some? && up.value.Pair? && up.value.cell in live then Some(up.value.cell.Get(path[|path| - 1]))
      else None
  }

  /** Walking `p + q` is walking `p`, then `q` from where `p` ended. */
  lemma {:induction false} FollowAppend(v: Value, p: seq<Slot>, q: seq<Slot>, live: set<PairCell>)
    ensures Follow(v, p + q, live) ==
              if Follow(v, p, live).Some? then Follow(Follow(v, p, live).value, q, live) else None
    decreases |q|
  {
    if q == [] {
      assert p + q == p;
    } else {
      var q' := q[..|q| - 1];
      assert (p + q)[..|p + q| - 1] == p + q';
      assert (p + q)[|p + q| - 1] == q[|q| - 1];
      FollowAppend(v, p, q', live);
    }
  }

  /** The central linearity fact: in a linear machine, if register `r1` reaches cell
      `c` along `p1` and register `r2` reaches it along `p2`, then the registers and
      the paths are the same. No pair is reachable from two places. */
  lemma {:induction false} PathsUnique<I>(m: Machine<I>, r1: I, p1: seq<Slot>, r2: I, p2: seq<Slot>, c: PairCell)
    requires m.Linear()
    requires r1 in m.registers && r2 in m.registers
    requires Follow(m.registers[r1], p1, m.owner.Keys) == Some(Pair(c))
    requires Follow(m.registers[r2], p2, m.owner.Keys) == Some(Pair(c))
    ensures r1 == r2 && p1 == p2
    decreases |p1| + |p2|
  {
    var live := m.owner.Keys;
    if p1 == [] && p2 == [] {
      assert m.owner[c] == Reg(r1) && m.owner[c] == Reg(r2);
    } else if p1 == [] || p2 == [] {
      // a cell is owned either by a register or by a slot, never by both
      assert false;
    } else {
      var q1, q2 := p1[..|p1| - 1], p2[..|p2| - 1];
      var d1 := Follow(m.registers[r1], q1, live).value.cell;
      var d2 := Follow(m.registers[r2], q2, live).value.cell;
      assert m.owner[c] == InSlot(d1, p1[|p1| - 1]);
      assert m.owner[c] == InSlot(d2, p2[|p2| - 1]);
      PathsUnique(m, r1, q1, r2, q2, d1);
      assert p1 == q1 + [p1[|p1| - 1]];
      assert p2 == q2 + [p2[|p2| - 1]];
    }
  }

  /** Two distinct registers of a linear machine never share a cell, however deep. */
  lemma {:induction false} DistinctRegistersDisjoint<I>(m: Machine<I>, r1: I, p1: seq<Slot>, r2: I, p2: seq<Slot>)
    requires m.Linear()
    requires r1 in m.registers && r2 in m.registers && r1 != r2
    ensures Follow(m.registers[r1], p1, m.owner.Keys).Some? && Follow(m.registers[r1], p1, m.owner.Keys).value.Pair? ==>
              Follow(m.registers[r2], p2, m.owner.Keys) != Follow(m.registers[r1], p1, m.owner.Keys)
  {
    var v := Follow(m.registers[r1], p1, m.owner.Keys);
    if v.Some? && v.value.Pair? && Follow(m.registers[r2], p2, m.owner.Keys) == v {
      PathsUnique(m, r1, p1, r2, p2, v.value.cell);
    }
  }

  /** The structure reachable from a register is acyclic: a cell reached from a
      register reaches itself only along the empty path. */
  lemma {:induction false} NoCycle<I>(m: Machine<I>, r: I, p: seq<Slot>, c: PairCell, q: seq<Slot>)
    requires m.Linear()
    requires r in m.registers
    requires Follow(m.registers[r], p, m.owner.Keys) == Some(Pair(c))
    requires Follow(Pair(c), q, m.owner.Keys) == Some(Pair(c))
    ensures q == []
  {
    FollowAppend(m.registers[r], p, q, m.owner.Keys);
    PathsUnique(m, r, p, r, p + q, c);
    assert |p + q| == |p|;
  }
}
