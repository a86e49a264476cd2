/**
 * Delocalization paths.  The path search itself (rmgpy.molecule.pathfinder)
 * is not part of this model: its three searches are supplied as functions,
 * and `Sound` states the shape every path they return must have.  A path is
 * the sequence of its atoms; bond c joins atoms c and c + 1.
 */
module PathFinder {
  import opened Wrappers
  import opened MolGraph

  /** Distinct atoms of m, each bonded to the next. */
  predicate IsPath(m: Mol, p: seq<nat>)
  {
    && |p| >= 2
    && (forall k | 0 <= k < |p| :: p[k] < |m.atoms|)
    && (forall k, l | 0 <= k < l < |p| :: p[k] != p[l])
    && (forall k | 0 <= k < |p| - 1 :: HasBond(m, p[k], p[k + 1]))
  }

  function Last(p: seq<nat>): nat
    requires p != []
  {
    p[|p| - 1]
  }

  /** Whether p is a path depends only on the atom count and the bond set. */
  lemma PathFrame(m: Mol, m': Mol, p: seq<nat>)
    requires |m'.atoms| == |m.atoms| && m'.bonds.Keys == m.bonds.Keys && IsPath(m, p)
    ensures IsPath(m', p)
  {
    assert forall k | 0 <= k < |p| - 1 :: HasBond(m, p[k], p[k + 1]);
  }

  /** An odd number of bonds alternating non-single, single, ..., non-single. */
  predicate IsButadienePath(m: Mol, start: nat, p: seq<nat>)
  {
    && IsPath(m, p)
    && p[0] == start
    && |p| % 2 == 0
    && (forall c | 0 <= c < |p| - 1 :: (c % 2 == 0 <==> Order(m, p[c], p[c + 1]) != SINGLE))
  }

  /** Three atoms: a non-single bond followed by a single bond. */
  predicate IsAllylPath(m: Mol, start: nat, p: seq<nat>)
  {
    && IsPath(m, p)
    && |p| == 3
    && p[0] == start
    && Order(m, p[0], p[1]) != SINGLE
    && Order(m, p[1], p[2]) == SINGLE
  }

  predicate EndsCharged(m: Mol, p: seq<nat>)
  {
    p != [] && Last(p) < |m.atoms| && m.atoms[Last(p)].charge != 0
  }

  /** find_butadiene(start, end), find_butadiene_end_with_charge(start) and
      find_allyl_end_with_charge(start), on 0-based atom positions. */
  datatype PathFinder = PathFinder(
    butadiene: (Mol, nat, nat) -> Option<seq<nat>>,
    butadieneEndWithCharge: (Mol, nat) -> Option<seq<nat>>,
    allylEndWithCharge: (Mol, nat) -> seq<seq<nat>>)

  /** The searches return only paths of the documented shapes. */
  ghost predicate Sound(pf: PathFinder)
  {
    && (forall m, s, e | pf.butadiene(m, s, e).Some? ::
          IsButadienePath(m, s, pf.butadiene(m, s, e).value) && Last(pf.butadiene(m, s, e).value) == e)
    && (forall m, s | pf.butadieneEndWithCharge(m, s).Some? ::
          IsButadienePath(m, s, pf.butadieneEndWithCharge(m, s).value)
          && EndsCharged(m, pf.butadieneEndWithCharge(m, s).value))
    && (forall m, s, p | p in pf.allylEndWithCharge(m, s) :: IsAllylPath(m, s, p) && EndsCharged(m, p))
  }

  // ---------------------------------------------------------------- inverting the bonds of a path

  /** Adds d to bonds b, b + 2, b + 4, ... of the path. */
  function Phase(m: Mol, p: seq<nat>, b: nat, d: int): Mol
    decreases |p| - b
  {
    if b + 1 >= |p| then m else Phase(WithOrderChange(m, p[b], p[b + 1], d), p, b + 2, d)
  }

  /** The source's `for bond in bonds[::2]: decrementOrder()` followed by
      `for bond in bonds[1::2]: incrementOrder()`. */
  function Flip(m: Mol, p: seq<nat>): Mol
  {
    Phase(Phase(m, p, 0, -UNIT), p, 1, UNIT)
  }

  function NumBonds(p: seq<nat>, b: nat): nat
    decreases |p| - b
  {
    if b + 1 >= |p| then 0 else 1 + NumBonds(p, b + 2)
  }

  /** How many of the bonds b, b + 2, ... have atom i as an endpoint. */
  function Touch(p: seq<nat>, b: nat, i: nat): nat
    decreases |p| - b
  {
    if b + 1 >= |p| then 0 else (if p[b] == i || p[b + 1] == i then 1 else 0) + Touch(p, b + 2, i)
  }

  predicate Distinct(p: seq<nat>)
  {
    forall k, l | 0 <= k < l < |p| :: p[k] != p[l]
  }

  /** On a path without repeated atoms, the bonds b, b + 2, ... cover the
      block of atoms b .. b + 2 * NumBonds(p, b) - 1 once each. */
  lemma {:induction false} TouchBlock(p: seq<nat>, b: nat, i: nat)
    requires Distinct(p) && b <= |p|
    ensures b + 2 * NumBonds(p, b) <= |p|
    ensures Touch(p, b, i) == if i in p[b..b + 2 * NumBonds(p, b)] then 1 else 0
    decreases |p| - b
  {
    if b + 1 < |p| {
      TouchBlock(p, b + 2, i);
      var n := NumBonds(p, b + 2);
      assert p[b..b + 2 + 2 * n] == [p[b], p[b + 1]] + p[b + 2..b + 2 + 2 * n];
    } else {
      assert p[b..b] == [];
    }
  }

  /** One bond of a path changed by d: still the same path, and only its two
      atoms see their bond-order sums move. */
  lemma PhaseStep(m: Mol, p: seq<nat>, b: nat, d: int)
    requires WellFormed(m) && IsPath(m, p) && b + 1 < |p|
    ensures var m1 := WithOrderChange(m, p[b], p[b + 1], d);
      && WellFormed(m1) && m1.atoms == m.atoms && m1.multiplicity == m.multiplicity
      && m1.bonds.Keys == m.bonds.Keys && IsPath(m1, p)
      && (forall i: nat :: OrderSum(m1, i) == OrderSum(m, i) + (if i == p[b] || i == p[b + 1] then d else 0))
      && TotalOrder(m1) == TotalOrder(m) + d
  {
    assert HasBond(m, p[b], p[b + 1]);
    OrderChangeEffect(m, p[b], p[b + 1], d);
    PathFrame(m, WithOrderChange(m, p[b], p[b + 1], d), p);
  }

  lemma {:induction false} PhaseShape(m: Mol, p: seq<nat>, b: nat, d: int)
    requires WellFormed(m) && IsPath(m, p)
    ensures var m' := Phase(m, p, b, d);
      && WellFormed(m') && m'.atoms == m.atoms && m'.multiplicity == m.multiplicity
      && m'.bonds.Keys == m.bonds.Keys && IsPath(m', p)
    decreases |p| - b
  {
    if b + 1 < |p| {
      PhaseStep(m, p, b, d);
      PhaseShape(WithOrderChange(m, p[b], p[b + 1], d), p, b + 2, d);
    }
  }

  /** What the bonds b, b + 2, ... add to atom i's bond-order sum when each
      changes by d. */
  function PhaseDelta(p: seq<nat>, b: nat, i: nat, d: int): int
    decreases |p| - b
  {
    if b + 1 >= |p| then 0 else (if p[b] == i || p[b + 1] == i then d else 0) + PhaseDelta(p, b + 2, i, d)
  }

  lemma {:induction false} PhaseDeltaScale(p: seq<nat>, b: nat, i: nat, d: int)
    ensures PhaseDelta(p, b, i, d) == d * Touch(p, b, i)
    decreases |p| - b
  {
    if b + 1 < |p| {
      PhaseDeltaScale(p, b + 2, i, d);
      var t := Touch(p, b + 2, i);
      assert d * (1 + t) == d + d * t;
    }
  }

  lemma {:induction false} PhaseSum(m: Mol, p: seq<nat>, b: nat, d: int, i: nat)
    requires WellFormed(m) && IsPath(m, p)
    ensures OrderSum(Phase(m, p, b, d), i) == OrderSum(m, i) + PhaseDelta(p, b, i, d)
    decreases |p| - b
  {
    if b + 1 < |p| {
      PhaseStep(m, p, b, d);
      PhaseSum(WithOrderChange(m, p[b], p[b + 1], d), p, b + 2, d, i);
    }
  }

  lemma MulSucc(d: int, n: int)
    ensures d * (1 + n) == d + d * n
  {
  }

  lemma {:induction false} PhaseTotal(m: Mol, p: seq<nat>, b: nat, d: int)
    requires WellFormed(m) && IsPath(m, p)
    ensures TotalOrder(Phase(m, p, b, d)) == TotalOrder(m) + d * NumBonds(p, b)
    decreases |p| - b
  {
    if b + 1 < |p| {
      var m1 := WithOrderChange(m, p[b], p[b + 1], d);
      PhaseStep(m, p, b, d);
      PhaseTotal(m1, p, b + 2, d);
      MulSucc(d, NumBonds(p, b + 2));
    }
  }

  /** Along a path of distinct atoms with an odd number of bonds, the even
      bonds touch every atom once and the odd bonds every inner atom once. */
  lemma TouchDifference(p: seq<nat>, i: nat)
    requires Distinct(p) && |p| >= 2 && |p| % 2 == 0
    ensures Touch(p, 0, i) - Touch(p, 1, i) == if i == p[0] || i == Last(p) then 1 else 0
  {
    TouchBlock(p, 0, i);
    TouchBlock(p, 1, i);
    NumBondsEven(p);
    assert p[0..|p|] == p;
    assert p == [p[0]] + p[1..|p| - 1] + [Last(p)];
    if i == p[0] || i == Last(p) {
      assert i !in p[1..|p| - 1];
    }
  }

  lemma FlipShape(m: Mol, p: seq<nat>)
    requires WellFormed(m) && IsPath(m, p)
    ensures var m' := Flip(m, p);
      && WellFormed(m') && m'.atoms == m.atoms && m'.multiplicity == m.multiplicity
      && m'.bonds.Keys == m.bonds.Keys
  {
    var m1 := Phase(m, p, 0, -UNIT);
    PhaseShape(m, p, 0, -UNIT);
    PhaseShape(m1, p, 1, UNIT);
  }

  /** Inverting an alternating path lowers the bond-order sum of its two end
      atoms by one unit and leaves every other atom's sum as it was. */
  lemma FlipSum(m: Mol, p: seq<nat>, i: nat)
    requires WellFormed(m) && IsPath(m, p) && |p| % 2 == 0
    ensures OrderSum(Flip(m, p), i) == OrderSum(m, i) + (if i == p[0] || i == Last(p) then -UNIT else 0)
  {
    var m1 := Phase(m, p, 0, -UNIT);
    PhaseShape(m, p, 0, -UNIT);
    PhaseSum(m, p, 0, -UNIT, i);
    PhaseSum(m1, p, 1, UNIT, i);
    PhaseDeltaScale(p, 0, i, -2);
    PhaseDeltaScale(p, 1, i, 2);
    TouchDifference(p, i);
  }

  /** ... and lowers the total bond order by exactly one unit. */
  lemma FlipTotal(m: Mol, p: seq<nat>)
    requires WellFormed(m) && IsPath(m, p) && |p| % 2 == 0
    ensures TotalOrder(Flip(m, p)) == TotalOrder(m) - UNIT
  {
    var m1 := Phase(m, p, 0, -UNIT);
    PhaseShape(m, p, 0, -UNIT);
    PhaseTotal(m, p, 0, -UNIT);
    PhaseTotal(m1, p, 1, UNIT);
    NumBondsEven(p);
  }

  lemma {:induction false} NumBondsCount(p: seq<nat>, b: nat, k: nat)
    requires b + 2 * k == |p| || b + 2 * k + 1 == |p|
    ensures NumBonds(p, b) == k
    decreases k
  {
    if k > 0 {
      NumBondsCount(p, b + 2, k - 1);
    }
  }

  /** A path with an odd number of bonds has one more even bond than odd. */
  lemma NumBondsEven(p: seq<nat>)
    requires |p| >= 2 && |p| % 2 == 0
    ensures 2 * NumBonds(p, 0) == |p| && NumBonds(p, 0) == NumBonds(p, 1) + 1
  {
    var k := |p| / 2;
    NumBondsCount(p, 0, k);
    NumBondsCount(p, 1, k - 1);
  }

  /** The two bond loops of the source: `decrementOrder` on bonds 0, 2, ...
      and `incrementOrder` on bonds 1, 3, ... of the path. */
  method InvertPath(mol: Molecule, p: seq<nat>)
    modifies mol
    ensures mol.State() == Flip(old(mol.State()), p)
  {
    ghost var m0 := mol.State();
    var b := 0;
    while b + 1 < |p|
      invariant Phase(mol.State(), p, b, -UNIT) == Phase(m0, p, 0, -UNIT)
      decreases |p| - b
    {
      mol.DecrementOrder(p[b], p[b + 1]);
      b := b + 2;
    }
    ghost var m1 := mol.State();
    b := 1;
    while b + 1 < |p|
      invariant Phase(mol.State(), p, b, UNIT) == Phase(m1, p, 1, UNIT)
      decreases |p| - b
    {
      mol.IncrementOrder(p[b], p[b + 1]);
      b := b + 2;
    }
  }
}
