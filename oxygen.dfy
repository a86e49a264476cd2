/**
 * fix_oxygen_unsaturated_bond: the first oxygen that is a radical with one
 * lone pair, or a cation with one lone pair, hands its unpaired electron or
 * its charge to a neighbour over an unsaturated bond.  At most one oxygen is
 * repaired per call.
 */
module OxygenRepair {
  import opened Wrappers
  import opened MolGraph
  import opened PendingIndices
  import opened PathFinder

  /** The two neighbour searches of the pass: a triple bond, or a bond that is
      not single to an uncharged atom. */
  datatype Want = TripleBond | NeutralUnsaturated

  predicate Wanted(m: Mol, i: nat, l: nat, w: Want)
    requires l < |m.atoms|
  {
    && HasBond(m, i, l)
    && match w
       case TripleBond => Order(m, i, l) == TRIPLE
       case NeutralUnsaturated => Order(m, i, l) != SINGLE && m.atoms[l].charge == 0
  }

  /** The first wanted neighbour of atom i at position j or later; neighbours
      are visited in ascending position. */
  function FirstNeighbour(m: Mol, i: nat, j: nat, w: Want): (r: Option<nat>)
    ensures r.None? <==> forall l | j <= l < |m.atoms| :: !Wanted(m, i, l, w)
    ensures r.Some? ==>
      && j <= r.value < |m.atoms| && Wanted(m, i, r.value, w)
      && forall l | j <= l < r.value :: !Wanted(m, i, l, w)
    decreases |m.atoms| - j
  {
    if j >= |m.atoms| then None
    else if Wanted(m, i, j, w) then Some(j)
    else FirstNeighbour(m, i, j + 1, w)
  }

  /** The bond loop `for atom2, bond in bonds.iteritems()` up to its first match. */
  method FindNeighbour(m: Mol, i: nat, w: Want) returns (r: Option<nat>)
    ensures r == FirstNeighbour(m, i, 0, w)
  {
    var l := 0;
    while l < |m.atoms|
      invariant l <= |m.atoms|
      invariant FirstNeighbour(m, i, l, w) == FirstNeighbour(m, i, 0, w)
    {
      if Wanted(m, i, l, w) {
        return Some(l);
      }
      l := l + 1;
    }
    return None;
  }

  // ---------------------------------------------------------------- the three edits

  /** A radical oxygen o with a triple bond to a: the bond drops to double, the
      unpaired electron moves to a and o gains a lone pair. */
  function RadicalTransfer(m: Mol, o: nat, a: nat): Mol
    requires o < |m.atoms| && a < |m.atoms|
  {
    var m1 := WithOrderChange(m, o, a, -UNIT);
    var m2 := AddRadical(m1, o, -1);
    var m3 := AddRadical(m2, a, 1);
    WithAtom(m3, o, m3.atoms[o].(lonePairs := m3.atoms[o].lonePairs + 1))
  }

  lemma RadicalTransferAtoms(m: Mol, o: nat, a: nat)
    requires o < |m.atoms| && a < |m.atoms| && o != a
    ensures var m' := RadicalTransfer(m, o, a);
      && |m'.atoms| == |m.atoms| && m'.multiplicity == m.multiplicity
      && m'.bonds == WithOrderChange(m, o, a, -UNIT).bonds
      && m'.atoms[o] == m.atoms[o].(radicals := m.atoms[o].radicals - 1, lonePairs := m.atoms[o].lonePairs + 1)
      && m'.atoms[a] == m.atoms[a].(radicals := m.atoms[a].radicals + 1)
      && forall i | 0 <= i < |m.atoms| && i != o && i != a :: m'.atoms[i] == m.atoms[i]
  {
  }

  lemma RadicalTransferCounts(m: Mol, o: nat, a: nat)
    requires o < |m.atoms| && a < |m.atoms|
    ensures var m' := RadicalTransfer(m, o, a);
      && RadicalCount(m') == RadicalCount(m)
      && AbsChargeSum(m'.atoms) == AbsChargeSum(m.atoms)
  {
    var m1 := WithOrderChange(m, o, a, -UNIT);
    assert m1.atoms == m.atoms;
    var b := m1.atoms[o].(radicals := m1.atoms[o].radicals - 1);
    var m2 := WithAtom(m1, o, b);
    WithAtomCounts(m1, o, b);
    assert RadicalCount(m2) == RadicalCount(m) - 1 && AbsChargeSum(m2.atoms) == AbsChargeSum(m.atoms);
    var c := m2.atoms[a].(radicals := m2.atoms[a].radicals + 1);
    var m3 := WithAtom(m2, a, c);
    WithAtomCounts(m2, a, c);
    assert RadicalCount(m3) == RadicalCount(m) && AbsChargeSum(m3.atoms) == AbsChargeSum(m.atoms);
    var d := m3.atoms[o].(lonePairs := m3.atoms[o].lonePairs + 1);
    WithAtomCounts(m3, o, d);
    assert WithAtom(m3, o, d) == RadicalTransfer(m, o, a);
  }

  /** Moving the electron keeps every atom's valence balance and the radical count. */
  lemma RadicalTransferEffect(m: Mol, o: nat, a: nat)
    requires WellFormed(m) && o < |m.atoms| && a < |m.atoms| && HasBond(m, o, a)
    ensures var m' := RadicalTransfer(m, o, a);
      && WellFormed(m') && |m'.atoms| == |m.atoms| && m'.multiplicity == m.multiplicity
      && RadicalCount(m') == RadicalCount(m)
      && AbsChargeSum(m'.atoms) == AbsChargeSum(m.atoms)
      && TotalOrder(m') == TotalOrder(m) - UNIT
      && forall i | 0 <= i < |m.atoms| :: Balance(m', i) == Balance(m, i)
  {
    var m1 := WithOrderChange(m, o, a, -UNIT);
    var m' := RadicalTransfer(m, o, a);
    OrderChangeEffect(m, o, a, -UNIT);
    RadicalTransferAtoms(m, o, a);
    RadicalTransferCounts(m, o, a);
    SameBondsEffect(m1, m');
    forall i | 0 <= i < |m.atoms| ensures Balance(m', i) == Balance(m, i) {
      assert OrderSum(m', i) == OrderSum(m, i) - (if i == o || i == a then UNIT else 0);
    }
  }

  /** An oxygen cation at the start of an allyl path p: both ends move one
      unit of charge toward zero, the oxygen gains a lone pair, the first bond
      is decremented and the second incremented. */
  function ChargeShift(m: Mol, p: seq<nat>): Mol
    requires IsPath(m, p) && |p| == 3
  {
    var o, e := p[0], p[2];
    var m1 := WithAtom(m, o, m.atoms[o].(charge := TowardZero(m.atoms[o].charge)));
    var m2 := WithAtom(m1, e, m1.atoms[e].(charge := TowardZero(m1.atoms[e].charge)));
    var m3 := WithAtom(m2, o, m2.atoms[o].(lonePairs := m2.atoms[o].lonePairs + 1));
    var m4 := WithOrderChange(m3, p[0], p[1], -UNIT);
    WithOrderChange(m4, p[1], p[2], UNIT)
  }

  /** The bond orders after the shift: the path's first bond one step down,
      its second one step up. */
  function ShiftedBonds(m: Mol, p: seq<nat>): Mol
    requires |p| == 3
  {
    WithOrderChange(WithOrderChange(m, p[0], p[1], -UNIT), p[1], p[2], UNIT)
  }

  lemma ChargeShiftAtoms(m: Mol, p: seq<nat>)
    requires IsPath(m, p) && |p| == 3
    ensures var m' := ChargeShift(m, p);
      && |m'.atoms| == |m.atoms| && m'.multiplicity == m.multiplicity
      && m'.bonds == ShiftedBonds(m, p).bonds
      && m'.atoms[p[0]] == m.atoms[p[0]].(charge := TowardZero(m.atoms[p[0]].charge), lonePairs := m.atoms[p[0]].lonePairs + 1)
      && m'.atoms[p[2]] == m.atoms[p[2]].(charge := TowardZero(m.atoms[p[2]].charge))
      && forall i | 0 <= i < |m.atoms| && i != p[0] && i != p[2] :: m'.atoms[i] == m.atoms[i]
  {
  }

  lemma ChargeShiftCounts(m: Mol, p: seq<nat>)
    requires IsPath(m, p) && |p| == 3
    ensures var m' := ChargeShift(m, p);
      && RadicalCount(m') == RadicalCount(m)
      && AbsChargeSum(m'.atoms) == AbsChargeSum(m.atoms)
           - Abs(m.atoms[p[0]].charge) + Abs(TowardZero(m.atoms[p[0]].charge))
           - Abs(m.atoms[p[2]].charge) + Abs(TowardZero(m.atoms[p[2]].charge))
  {
    var o, e := p[0], p[2];
    assert o != e;
    var b := m.atoms[o].(charge := TowardZero(m.atoms[o].charge));
    var m1 := WithAtom(m, o, b);
    WithAtomCounts(m, o, b);
    var c := m1.atoms[e].(charge := TowardZero(m1.atoms[e].charge));
    var m2 := WithAtom(m1, e, c);
    WithAtomCounts(m1, e, c);
    assert RadicalCount(m2) == RadicalCount(m);
    assert AbsChargeSum(m2.atoms) == AbsChargeSum(m.atoms)
      - Abs(m.atoms[o].charge) + Abs(TowardZero(m.atoms[o].charge))
      - Abs(m.atoms[e].charge) + Abs(TowardZero(m.atoms[e].charge));
    var d := m2.atoms[o].(lonePairs := m2.atoms[o].lonePairs + 1);
    var m3 := WithAtom(m2, o, d);
    WithAtomCounts(m2, o, d);
    assert RadicalCount(m3) == RadicalCount(m2) && AbsChargeSum(m3.atoms) == AbsChargeSum(m2.atoms);
    var m4 := WithOrderChange(m3, p[0], p[1], -UNIT);
    assert m4.atoms == m3.atoms;
    assert WithOrderChange(m4, p[1], p[2], UNIT) == ChargeShift(m, p);
  }

  lemma ShiftedBondsEffect(m: Mol, p: seq<nat>)
    requires WellFormed(m) && IsPath(m, p) && |p| == 3
    ensures var mb := ShiftedBonds(m, p);
      && WellFormed(mb) && TotalOrder(mb) == TotalOrder(m)
      && forall i: nat :: OrderSum(mb, i) == OrderSum(m, i) + (if i == p[0] then -UNIT else if i == p[2] then UNIT else 0)
  {
    var m1 := WithOrderChange(m, p[0], p[1], -UNIT);
    OrderChangeEffect(m, p[0], p[1], -UNIT);
    OrderChangeEffect(m1, p[1], p[2], UNIT);
  }

  /** The oxygen's balance is kept, so is the middle atom's; the end atom's is
      kept when its charge is positive and is 4 half-units over when it is
      negative.  The charge magnitude drops by two and no radical appears. */
  lemma ChargeShiftEffect(m: Mol, p: seq<nat>)
    requires WellFormed(m) && IsPath(m, p) && |p| == 3
    requires m.atoms[p[0]].charge == 1 && m.atoms[p[2]].charge != 0
    ensures var m' := ChargeShift(m, p);
      && WellFormed(m') && |m'.atoms| == |m.atoms| && m'.multiplicity == m.multiplicity
      && RadicalCount(m') == RadicalCount(m)
      && AbsChargeSum(m'.atoms) == AbsChargeSum(m.atoms) - 2
      && TotalOrder(m') == TotalOrder(m)
      && forall i | 0 <= i < |m.atoms| ::
           Balance(m', i) == Balance(m, i) + (if i == p[2] && m.atoms[i].charge < 0 then 2 * UNIT else 0)
  {
    var m' := ChargeShift(m, p);
    var mb := ShiftedBonds(m, p);
    ChargeShiftAtoms(m, p);
    ChargeShiftCounts(m, p);
    ShiftedBondsEffect(m, p);
    SameBondsEffect(mb, m');
    forall i | 0 <= i < |m.atoms|
      ensures Balance(m', i) == Balance(m, i) + (if i == p[2] && m.atoms[i].charge < 0 then 2 * UNIT else 0)
    {
      assert OrderSum(m', i) == OrderSum(m, i) + (if i == p[0] then -UNIT else if i == p[2] then UNIT else 0);
    }
  }

  /** The fallback for an oxygen cation o without an allyl path: o loses its
      charge and gains a lone pair; when a is pending, the bond to a drops one
      step, a becomes a radical and leaves the pending list. */
  function NeutralFallback(m: Mol, u: seq<int>, o: nat, a: nat): (Mol, seq<int>)
    requires o < |m.atoms| && a < |m.atoms|
  {
    var m2 := NeutralFallbackMiddle(m, u, o, a);
    var u' := if a + 1 in u then RemoveFirst(u, a + 1) else u;
    (WithAtom(m2, o, m2.atoms[o].(lonePairs := m2.atoms[o].lonePairs + 1)), u')
  }

  /** The fallback before the oxygen's new lone pair. */
  function NeutralFallbackMiddle(m: Mol, u: seq<int>, o: nat, a: nat): (r: Mol)
    requires o < |m.atoms| && a < |m.atoms|
    ensures |r.atoms| == |m.atoms|
  {
    var m1 := WithAtom(m, o, m.atoms[o].(charge := m.atoms[o].charge - 1));
    if a + 1 in u then AddRadical(WithOrderChange(m1, o, a, -UNIT), a, 1) else m1
  }

  lemma NeutralFallbackAtoms(m: Mol, u: seq<int>, o: nat, a: nat)
    requires o < |m.atoms| && a < |m.atoms| && o != a
    ensures var (m', u') := NeutralFallback(m, u, o, a);
      && |m'.atoms| == |m.atoms| && m'.multiplicity == m.multiplicity
      && m'.atoms[o] == m.atoms[o].(charge := m.atoms[o].charge - 1, lonePairs := m.atoms[o].lonePairs + 1)
      && (forall i | 0 <= i < |m.atoms| && i != o && i != a :: m'.atoms[i] == m.atoms[i])
      && (a + 1 in u ==>
            && m'.bonds == WithOrderChange(m, o, a, -UNIT).bonds
            && m'.atoms[a] == m.atoms[a].(radicals := m.atoms[a].radicals + 1)
            && u' == RemoveFirst(u, a + 1))
      && (a + 1 !in u ==> m'.bonds == m.bonds && m'.atoms[a] == m.atoms[a] && u' == u)
  {
  }

  lemma NeutralFallbackCounts(m: Mol, u: seq<int>, o: nat, a: nat)
    requires o < |m.atoms| && a < |m.atoms| && o != a
    ensures var (m', u') := NeutralFallback(m, u, o, a);
      && RadicalCount(m') == RadicalCount(m) + (if a + 1 in u then 1 else 0)
      && AbsChargeSum(m'.atoms) == AbsChargeSum(m.atoms) - Abs(m.atoms[o].charge) + Abs(m.atoms[o].charge - 1)
  {
    var b := m.atoms[o].(charge := m.atoms[o].charge - 1);
    var m1 := WithAtom(m, o, b);
    WithAtomCounts(m, o, b);
    var m2 := m1;
    if a + 1 in u {
      var m1' := WithOrderChange(m1, o, a, -UNIT);
      assert m1'.atoms == m1.atoms;
      var c := m1'.atoms[a].(radicals := m1'.atoms[a].radicals + 1);
      m2 := WithAtom(m1', a, c);
      WithAtomCounts(m1', a, c);
      assert m2 == NeutralFallbackMiddle(m, u, o, a);
    }
    assert m2 == NeutralFallbackMiddle(m, u, o, a);
    assert RadicalCount(m2) == RadicalCount(m) + (if a + 1 in u then 1 else 0);
    assert AbsChargeSum(m2.atoms) == AbsChargeSum(m.atoms) - Abs(m.atoms[o].charge) + Abs(m.atoms[o].charge - 1);
    var d := m2.atoms[o].(lonePairs := m2.atoms[o].lonePairs + 1);
    WithAtomCounts(m2, o, d);
    assert WithAtom(m2, o, d) == NeutralFallback(m, u, o, a).0;
  }

  /** The radical count plus the pending count is kept; every balance but the
      oxygen's is kept, and the oxygen's is kept only when a was pending (it is
      UNIT over otherwise). */
  lemma NeutralFallbackEffect(m: Mol, u: seq<int>, o: nat, a: nat)
    requires WellFormed(m) && o < |m.atoms| && a < |m.atoms| && HasBond(m, o, a)
    requires m.atoms[o].charge == 1
    ensures var r := NeutralFallback(m, u, o, a);
      && WellFormed(r.0) && |r.0.atoms| == |m.atoms| && r.0.multiplicity == m.multiplicity
      && RadicalCount(r.0) + |r.1| == RadicalCount(m) + |u|
      && AbsChargeSum(r.0.atoms) == AbsChargeSum(m.atoms) - 1
      && (r.1 == u || r.1 == RemoveFirst(u, a + 1))
      && forall i | 0 <= i < |m.atoms| ::
           Balance(r.0, i) == Balance(m, i) + (if i == o && a + 1 !in u then UNIT else 0)
  {
    if a + 1 in u {
      FallbackPendingBalance(m, u, o, a);
    } else {
      FallbackIdleBalance(m, u, o, a);
    }
    NeutralFallbackCounts(m, u, o, a);
  }

  lemma FallbackPendingBalance(m: Mol, u: seq<int>, o: nat, a: nat)
    requires WellFormed(m) && o < |m.atoms| && a < |m.atoms| && HasBond(m, o, a) && a + 1 in u
    ensures var r := NeutralFallback(m, u, o, a);
      && WellFormed(r.0) && r.1 == RemoveFirst(u, a + 1) && |r.1| == |u| - 1
      && forall i | 0 <= i < |m.atoms| :: Balance(r.0, i) == Balance(m, i)
  {
    var m' := NeutralFallback(m, u, o, a).0;
    NeutralFallbackAtoms(m, u, o, a);
    RemoveFirstCount(u, a + 1);
    var mb := WithOrderChange(m, o, a, -UNIT);
    OrderChangeEffect(m, o, a, -UNIT);
    SameBondsEffect(mb, m');
    forall i | 0 <= i < |m.atoms| ensures Balance(m', i) == Balance(m, i) {
      assert OrderSum(m', i) == OrderSum(m, i) - (if i == o || i == a then UNIT else 0);
    }
  }

  lemma FallbackIdleBalance(m: Mol, u: seq<int>, o: nat, a: nat)
    requires WellFormed(m) && o < |m.atoms| && a < |m.atoms| && HasBond(m, o, a) && a + 1 !in u
    ensures var r := NeutralFallback(m, u, o, a);
      && WellFormed(r.0) && r.1 == u
      && forall i | 0 <= i < |m.atoms| :: Balance(r.0, i) == Balance(m, i) + (if i == o then UNIT else 0)
  {
    var m' := NeutralFallback(m, u, o, a).0;
    NeutralFallbackAtoms(m, u, o, a);
    SameBondsEffect(m, m');
    forall i | 0 <= i < |m.atoms| ensures Balance(m', i) == Balance(m, i) + (if i == o then UNIT else 0) {
      assert OrderSum(m', i) == OrderSum(m, i);
    }
  }

  // ---------------------------------------------------------------- the scan over the atoms

  predicate RadicalOxygen(a: Atom)
  {
    a.number == OXYGEN && a.radicals == 1 && a.lonePairs == 1
  }

  predicate CationOxygen(a: Atom)
  {
    a.number == OXYGEN && a.charge == 1 && a.lonePairs == 1
  }

  /** The atom loop from position k on; the first repair ends the pass. */
  function OxygenFrom(m: Mol, u: seq<int>, pf: PathFinder, k: nat): (Mol, seq<int>)
    requires Sound(pf)
    decreases |m.atoms| - k
  {
    if k >= |m.atoms| then (m, u)
    else if RadicalOxygen(m.atoms[k]) then
      match FirstNeighbour(m, k, 0, TripleBond)
      case Some(a) => (RadicalTransfer(m, k, a), u)
      case None => OxygenFrom(m, u, pf, k + 1)
    else if CationOxygen(m.atoms[k]) then
      var ps := pf.allylEndWithCharge(m, k);
      if ps != [] then
        assert ps[0] in ps;
        (ChargeShift(m, ps[0]), u)
      else
        match FirstNeighbour(m, k, 0, NeutralUnsaturated)
        case Some(a) => NeutralFallback(m, u, k, a)
        case None => OxygenFrom(m, u, pf, k + 1)
    else OxygenFrom(m, u, pf, k + 1)
  }

  /** fix_oxygen_unsaturated_bond(mol, u_indices). */
  function OxygenFix(m: Mol, u: seq<int>, pf: PathFinder): (Mol, seq<int>)
    requires Sound(pf)
  {
    OxygenFrom(m, u, pf, 0)
  }

  /** What every repair of this pass keeps: the shape, the radical count plus
      the pending count, a pending list that only loses entries, and a charge
      magnitude that does not grow. */
  ghost predicate Conserves(m: Mol, u: seq<int>, m': Mol, u': seq<int>)
  {
    && WellFormed(m') && |m'.atoms| == |m.atoms| && m'.multiplicity == m.multiplicity
    && RadicalCount(m') + |u'| == RadicalCount(m) + |u|
    && AbsChargeSum(m'.atoms) <= AbsChargeSum(m.atoms)
    && forall v :: Count(u', v) <= Count(u, v)
  }

  lemma TransferConserves(m: Mol, u: seq<int>, o: nat, a: nat)
    requires WellFormed(m) && o < |m.atoms| && a < |m.atoms| && HasBond(m, o, a)
    ensures Conserves(m, u, RadicalTransfer(m, o, a), u)
  {
    RadicalTransferEffect(m, o, a);
  }

  lemma ShiftConserves(m: Mol, u: seq<int>, p: seq<nat>)
    requires WellFormed(m) && IsPath(m, p) && |p| == 3
    requires m.atoms[p[0]].charge == 1 && m.atoms[p[2]].charge != 0
    ensures Conserves(m, u, ChargeShift(m, p), u)
  {
    ChargeShiftEffect(m, p);
  }

  lemma FallbackConserves(m: Mol, u: seq<int>, o: nat, a: nat)
    requires WellFormed(m) && o < |m.atoms| && a < |m.atoms| && HasBond(m, o, a)
    requires m.atoms[o].charge == 1
    ensures var r := NeutralFallback(m, u, o, a); Conserves(m, u, r.0, r.1)
  {
    NeutralFallbackEffect(m, u, o, a);
    forall v ensures Count(NeutralFallback(m, u, o, a).1, v) <= Count(u, v) {
      if a + 1 in u {
        CountRemoveFirst(u, a + 1, v);
      }
    }
  }

  lemma {:induction false} OxygenFromConserves(m: Mol, u: seq<int>, pf: PathFinder, k: nat)
    requires Sound(pf) && WellFormed(m)
    ensures var (m', u') := OxygenFrom(m, u, pf, k); Conserves(m, u, m', u')
    decreases |m.atoms| - k
  {
    if k < |m.atoms| {
      if RadicalOxygen(m.atoms[k]) {
        match FirstNeighbour(m, k, 0, TripleBond)
        case Some(a) => TransferConserves(m, u, k, a);
        case None => OxygenFromConserves(m, u, pf, k + 1);
      } else if CationOxygen(m.atoms[k]) {
        var ps := pf.allylEndWithCharge(m, k);
        if ps != [] {
          assert ps[0] in ps;
          ShiftConserves(m, u, ps[0]);
        } else {
          match FirstNeighbour(m, k, 0, NeutralUnsaturated)
          case Some(a) => FallbackConserves(m, u, k, a);
          case None => OxygenFromConserves(m, u, pf, k + 1);
        }
      } else {
        OxygenFromConserves(m, u, pf, k + 1);
      }
    }
  }

  lemma OxygenFixConserves(m: Mol, u: seq<int>, pf: PathFinder)
    requires Sound(pf) && WellFormed(m)
    ensures var (m', u') := OxygenFix(m, u, pf); Conserves(m, u, m', u')
  {
    OxygenFromConserves(m, u, pf, 0);
  }

  lemma {:induction false} OxygenFromIdle(m: Mol, u: seq<int>, pf: PathFinder, k: nat)
    requires Sound(pf)
    requires forall i | k <= i < |m.atoms| :: !RadicalOxygen(m.atoms[i]) && !CationOxygen(m.atoms[i])
    ensures OxygenFrom(m, u, pf, k) == (m, u)
    decreases |m.atoms| - k
  {
    if k < |m.atoms| {
      OxygenFromIdle(m, u, pf, k + 1);
    }
  }

  /** Without a radical or cationic oxygen carrying one lone pair the pass
      changes nothing. */
  lemma OxygenFixIdle(m: Mol, u: seq<int>, pf: PathFinder)
    requires Sound(pf)
    requires forall i | 0 <= i < |m.atoms| :: !RadicalOxygen(m.atoms[i]) && !CationOxygen(m.atoms[i])
    ensures OxygenFix(m, u, pf) == (m, u)
  {
    OxygenFromIdle(m, u, pf, 0);
  }

  /** fix_oxygen_unsaturated_bond on the molecule object. */
  method FixOxygenUnsaturatedBond(mol: Molecule, u: seq<int>, pf: PathFinder) returns (u': seq<int>)
    requires Sound(pf) && WellFormed(mol.State())
    modifies mol
    ensures (mol.State(), u') == OxygenFix(old(mol.State()), u, pf)
  {
    ghost var m0 := mol.State();
    u' := u;
    var k := 0;
    while k < |mol.atoms|
      invariant k <= |mol.atoms| && mol.State() == m0
      invariant OxygenFrom(m0, u, pf, k) == OxygenFix(m0, u, pf)
    {
      var at := mol.atoms[k];
      if RadicalOxygen(at) {
        var a := FindNeighbour(mol.State(), k, TripleBond);
        if a.Some? {
          TransferRadical(mol, k, a.value);
          return;
        }
      } else if CationOxygen(at) {
        var ps := pf.allylEndWithCharge(mol.State(), k);
        if ps != [] {
          assert ps[0] in ps;
          ShiftCharge(mol, ps[0]);
          return;
        }
        var a := FindNeighbour(mol.State(), k, NeutralUnsaturated);
        if a.Some? {
          u' := NeutralizeOxygen(mol, u', k, a.value);
          return;
        }
      }
      k := k + 1;
    }
  }

  /** The radical transfer on the molecule object. */
  method TransferRadical(mol: Molecule, o: nat, a: nat)
    requires o < |mol.atoms| && a < |mol.atoms|
    modifies mol
    ensures mol.State() == RadicalTransfer(old(mol.State()), o, a)
  {
    mol.DecrementOrder(o, a);
    mol.SetAtom(o, mol.atoms[o].(radicals := mol.atoms[o].radicals - 1));
    mol.SetAtom(a, mol.atoms[a].(radicals := mol.atoms[a].radicals + 1));
    mol.SetAtom(o, mol.atoms[o].(lonePairs := mol.atoms[o].lonePairs + 1));
  }

  /** The charge shift along an allyl path on the molecule object. */
  method ShiftCharge(mol: Molecule, p: seq<nat>)
    requires IsPath(mol.State(), p) && |p| == 3
    modifies mol
    ensures mol.State() == ChargeShift(old(mol.State()), p)
  {
    mol.SetAtom(p[0], mol.atoms[p[0]].(charge := TowardZero(mol.atoms[p[0]].charge)));
    mol.SetAtom(p[2], mol.atoms[p[2]].(charge := TowardZero(mol.atoms[p[2]].charge)));
    mol.SetAtom(p[0], mol.atoms[p[0]].(lonePairs := mol.atoms[p[0]].lonePairs + 1));
    mol.DecrementOrder(p[0], p[1]);
    mol.IncrementOrder(p[1], p[2]);
  }

  /** The fallback neutralisation of an oxygen cation on the molecule object. */
  method NeutralizeOxygen(mol: Molecule, u: seq<int>, o: nat, a: nat) returns (u': seq<int>)
    requires o < |mol.atoms| && a < |mol.atoms|
    modifies mol
    ensures (mol.State(), u') == NeutralFallback(old(mol.State()), u, o, a)
  {
    u' := u;
    mol.SetAtom(o, mol.atoms[o].(charge := mol.atoms[o].charge - 1));
    if a + 1 in u {
      mol.DecrementOrder(o, a);
      mol.SetAtom(a, mol.atoms[a].(radicals := mol.atoms[a].radicals + 1));
      u' := RemoveFirst(u, a + 1);
    }
    mol.SetAtom(o, mol.atoms[o].(lonePairs := mol.atoms[o].lonePairs + 1));
  }
}
