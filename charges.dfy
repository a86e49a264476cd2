/**
 * The two charge passes of fixCharge that need no path search:
 * convert_charge_to_unpaired_electron and fix_adjacent_charges.
 */
module ChargeRepair {
  import opened MolGraph
  import opened PendingIndices

  // ---------------------------------------------------------------- convert_charge_to_unpaired_electron

  /** One unit of the atom's charge becomes an unpaired electron. */
  function ChargeToRadicalAtom(a: Atom): Atom
  {
    a.(charge := TowardZero(a.charge), radicals := a.radicals + 1)
  }

  /** Atom i is charged and its 1-based index is pending. */
  predicate Converts(m: Mol, u: seq<int>, i: nat)
    requires i < |m.atoms|
  {
    m.atoms[i].charge != 0 && i + 1 in u
  }

  /** The pass over the atoms at position k and later. */
  function ChargeToRadicalFrom(m: Mol, u: seq<int>, k: nat): (Mol, seq<int>)
    decreases |m.atoms| - k
  {
    if k >= |m.atoms| then (m, u)
    else if Converts(m, u, k) then
      ChargeToRadicalFrom(WithAtom(m, k, ChargeToRadicalAtom(m.atoms[k])), RemoveFirst(u, k + 1), k + 1)
    else ChargeToRadicalFrom(m, u, k + 1)
  }

  /** convert_charge_to_unpaired_electron(mol, u_indices): the new molecule
      and the new pending list. */
  function ChargeToRadical(m: Mol, u: seq<int>): (Mol, seq<int>)
  {
    ChargeToRadicalFrom(m, u, 0)
  }

  /** Atoms before k are kept; from k on, exactly the converting atoms change. */
  lemma {:induction false} ChargeToRadicalFromAtoms(m: Mol, u: seq<int>, k: nat)
    requires k <= |m.atoms|
    ensures var (m', u') := ChargeToRadicalFrom(m, u, k);
      && |m'.atoms| == |m.atoms| && m'.bonds == m.bonds && m'.multiplicity == m.multiplicity
      && (forall i | 0 <= i < k :: m'.atoms[i] == m.atoms[i])
      && (forall i | k <= i < |m.atoms| ::
            m'.atoms[i] == if Converts(m, u, i) then ChargeToRadicalAtom(m.atoms[i]) else m.atoms[i])
      && (forall v :: Count(u', v) == Count(u, v) - (if k < v <= |m.atoms| && Converts(m, u, v - 1) then 1 else 0))
    decreases |m.atoms| - k
  {
    if k < |m.atoms| {
      if Converts(m, u, k) {
        var m1 := WithAtom(m, k, ChargeToRadicalAtom(m.atoms[k]));
        var u1 := RemoveFirst(u, k + 1);
        forall v ensures Count(u1, v) == Count(u, v) - (if v == k + 1 then 1 else 0) {
          CountRemoveFirst(u, k + 1, v);
        }
        forall i | k + 1 <= i < |m.atoms| ensures Converts(m1, u1, i) == Converts(m, u, i) {
          CountPositive(u1, i + 1);
          CountPositive(u, i + 1);
        }
        ChargeToRadicalFromAtoms(m1, u1, k + 1);
      } else {
        ChargeToRadicalFromAtoms(m, u, k + 1);
      }
    }
  }

  /** Each conversion adds a radical, removes a pending index and removes a
      unit of charge magnitude. */
  lemma {:induction false} ChargeToRadicalFromSums(m: Mol, u: seq<int>, k: nat)
    requires k <= |m.atoms|
    ensures var (m', u') := ChargeToRadicalFrom(m, u, k);
      && RadicalCount(m') + |u'| == RadicalCount(m) + |u|
      && AbsChargeSum(m'.atoms) + |u| - |u'| == AbsChargeSum(m.atoms)
    decreases |m.atoms| - k
  {
    if k < |m.atoms| {
      if Converts(m, u, k) {
        var m1 := WithAtom(m, k, ChargeToRadicalAtom(m.atoms[k]));
        var u1 := RemoveFirst(u, k + 1);
        WithAtomEffect(m, k, ChargeToRadicalAtom(m.atoms[k]));
        RemoveFirstCount(u, k + 1);
        ChargeToRadicalFromSums(m1, u1, k + 1);
      } else {
        ChargeToRadicalFromSums(m, u, k + 1);
      }
    }
  }

  /** Every charged atom whose index is pending loses one unit of charge toward
      zero and gains one unpaired electron; each such index leaves the pending
      list once; radicals plus pending indices, and charge magnitude plus
      pending indices, are conserved. */
  lemma ChargeToRadicalEffect(m: Mol, u: seq<int>)
    ensures var (m', u') := ChargeToRadical(m, u);
      && |m'.atoms| == |m.atoms| && m'.bonds == m.bonds && m'.multiplicity == m.multiplicity
      && (forall i | 0 <= i < |m.atoms| ::
            m'.atoms[i] == if m.atoms[i].charge != 0 && i + 1 in u
                           then m.atoms[i].(charge := TowardZero(m.atoms[i].charge), radicals := m.atoms[i].radicals + 1)
                           else m.atoms[i])
      && (forall v :: Count(u', v) == Count(u, v) - (if 0 < v <= |m.atoms| && m.atoms[v - 1].charge != 0 && v in u then 1 else 0))
      && RadicalCount(m') + |u'| == RadicalCount(m) + |u|
      && AbsChargeSum(m'.atoms) + |u| - |u'| == AbsChargeSum(m.atoms)
  {
    ChargeToRadicalFromAtoms(m, u, 0);
    ChargeToRadicalFromSums(m, u, 0);
  }

  /** convert_charge_to_unpaired_electron on the molecule object; returns the
      pending list after the removals. */
  method ConvertChargeToUnpairedElectron(mol: Molecule, u: seq<int>) returns (u': seq<int>)
    modifies mol
    ensures (mol.State(), u') == ChargeToRadical(old(mol.State()), u)
  {
    ghost var m0 := mol.State();
    u' := u;
    var k := 0;
    while k < |mol.atoms|
      invariant 0 <= k <= |mol.atoms|
      invariant ChargeToRadicalFrom(mol.State(), u', k) == ChargeToRadicalFrom(m0, u, 0)
    {
      var at := mol.atoms[k];
      if at.charge != 0 && k + 1 in u' {
        mol.SetAtom(k, at.(charge := TowardZero(at.charge), radicals := at.radicals + 1));
        u' := RemoveFirst(u', k + 1);
      }
      k := k + 1;
    }
  }

  // ---------------------------------------------------------------- fix_adjacent_charges

  /** One neutralisation of the pair i, j: the bond between them goes up one
      step and each charge moves one unit toward zero. */
  function Neutralize(m: Mol, i: nat, j: nat): (r: Mol)
    requires i < |m.atoms| && j < |m.atoms|
    ensures |r.atoms| == |m.atoms|
  {
    var m1 := WithOrderChange(m, i, j, UNIT);
    var m2 := WithAtom(m1, i, m1.atoms[i].(charge := TowardZero(m1.atoms[i].charge)));
    WithAtom(m2, j, m2.atoms[j].(charge := TowardZero(m2.atoms[j].charge)))
  }

  /** The visit of atom i's neighbours at position j and later.  The source
      tests only the neighbour's charge (recheck false); the corrected pass
      also requires atom i to be still charged (recheck true). */
  function NeighbourPass(m: Mol, i: nat, j: nat, recheck: bool): (r: Mol)
    requires i < |m.atoms|
    ensures |r.atoms| == |m.atoms|
    decreases |m.atoms| - j
  {
    if j >= |m.atoms| then m
    else if HasBond(m, i, j) && m.atoms[j].charge != 0 && (!recheck || m.atoms[i].charge != 0) then
      NeighbourPass(Neutralize(m, i, j), i, j + 1, recheck)
    else NeighbourPass(m, i, j + 1, recheck)
  }

  /** The outer loop over atoms at position i and later; an atom is only
      visited when it is charged at that moment. */
  function AdjacentFrom(m: Mol, i: nat, recheck: bool): (r: Mol)
    ensures |r.atoms| == |m.atoms|
    decreases |m.atoms| - i
  {
    if i >= |m.atoms| then m
    else AdjacentFrom(if m.atoms[i].charge != 0 then NeighbourPass(m, i, 0, recheck) else m, i + 1, recheck)
  }

  /** fix_adjacent_charges as written. */
  function AdjacentChargesAsWritten(m: Mol): Mol
  {
    AdjacentFrom(m, 0, false)
  }

  /** fix_adjacent_charges with the neighbour loop stopping once the atom is
      neutral. */
  function AdjacentCharges(m: Mol): Mol
  {
    AdjacentFrom(m, 0, true)
  }

  /** m' differs from m only in charges that moved toward zero without
      crossing it and in bond orders that went up; every unit
      of charge removed is matched by half a step of bond order added. */
  predicate Neutralizes(m: Mol, m': Mol)
  {
    && |m'.atoms| == |m.atoms| && m'.multiplicity == m.multiplicity
    && m'.bonds.Keys == m.bonds.Keys
    && (forall i | 0 <= i < |m.atoms| ::
          && m'.atoms[i] == m.atoms[i].(charge := m'.atoms[i].charge)
          && Abs(m'.atoms[i].charge) <= Abs(m.atoms[i].charge)
          && (m'.atoms[i].charge == 0 || (m'.atoms[i].charge < 0 <==> m.atoms[i].charge < 0)))
    && (forall e | e in m.bonds :: m'.bonds[e] >= m.bonds[e])
    && 2 * (TotalOrder(m') - TotalOrder(m)) == UNIT * (AbsChargeSum(m.atoms) - AbsChargeSum(m'.atoms))
    && RadicalCount(m') == RadicalCount(m)
  }

  lemma NeutralizesRefl(m: Mol)
    ensures Neutralizes(m, m)
  {
  }

  lemma NeutralizesTrans(m1: Mol, m2: Mol, m3: Mol)
    requires Neutralizes(m1, m2) && Neutralizes(m2, m3)
    ensures Neutralizes(m1, m3)
  {
  }

  /** Neutralising two bonded atoms changes their charges and one bond order
      and nothing else. */
  lemma NeutralizeAtoms(m: Mol, i: nat, j: nat)
    requires i < |m.atoms| && j < |m.atoms| && i != j
    ensures var r := Neutralize(m, i, j);
      && r.multiplicity == m.multiplicity
      && r.bonds == WithOrderChange(m, i, j, UNIT).bonds
      && r.atoms[i] == m.atoms[i].(charge := TowardZero(m.atoms[i].charge))
      && r.atoms[j] == m.atoms[j].(charge := TowardZero(m.atoms[j].charge))
      && forall k | 0 <= k < |m.atoms| && k != i && k != j :: r.atoms[k] == m.atoms[k]
  {
  }

  /** The bond gains one step while the charged neighbour loses one unit;
      atom i loses one unit too when it is charged, and goes to -1 when it is
      neutral, so the charge magnitude falls by two or stays. */
  lemma NeutralizeTotals(m: Mol, i: nat, j: nat)
    requires WellFormed(m) && i < |m.atoms| && j < |m.atoms| && HasBond(m, i, j)
    requires m.atoms[j].charge != 0
    ensures var r := Neutralize(m, i, j);
      && WellFormed(r) && RadicalCount(r) == RadicalCount(m)
      && TotalOrder(r) == TotalOrder(m) + UNIT
      && AbsChargeSum(r.atoms) == AbsChargeSum(m.atoms) - (if m.atoms[i].charge != 0 then 2 else 0)
  {
    var m1 := WithOrderChange(m, i, j, UNIT);
    OrderChangeEffect(m, i, j, UNIT);
    assert m1.atoms == m.atoms;
    var a := m1.atoms[i].(charge := TowardZero(m1.atoms[i].charge));
    var m2 := WithAtom(m1, i, a);
    WithAtomEffect(m1, i, a);
    assert AbsChargeSum(m2.atoms) == AbsChargeSum(m.atoms) - (if m.atoms[i].charge != 0 then 1 else -1);
    assert m2.atoms[j] == m.atoms[j];
    var b := m2.atoms[j].(charge := TowardZero(m2.atoms[j].charge));
    WithAtomEffect(m2, j, b);
  }

  /** A neutralisation of two bonded charged atoms. */
  lemma NeutralizeStep(m: Mol, i: nat, j: nat)
    requires WellFormed(m) && i < |m.atoms| && j < |m.atoms| && HasBond(m, i, j)
    requires m.atoms[i].charge != 0 && m.atoms[j].charge != 0
    ensures WellFormed(Neutralize(m, i, j)) && Neutralizes(m, Neutralize(m, i, j))
  {
    NeutralizeAtoms(m, i, j);
    NeutralizeTotals(m, i, j);
  }

  lemma {:induction false} NeighbourPassNeutralizes(m: Mol, i: nat, j: nat)
    requires WellFormed(m) && i < |m.atoms|
    ensures WellFormed(NeighbourPass(m, i, j, true)) && Neutralizes(m, NeighbourPass(m, i, j, true))
    decreases |m.atoms| - j
  {
    if j >= |m.atoms| {
      NeutralizesRefl(m);
    } else if HasBond(m, i, j) && m.atoms[j].charge != 0 && m.atoms[i].charge != 0 {
      var m1 := Neutralize(m, i, j);
      NeutralizeStep(m, i, j);
      NeighbourPassNeutralizes(m1, i, j + 1);
      NeutralizesTrans(m, m1, NeighbourPass(m1, i, j + 1, true));
    } else {
      NeighbourPassNeutralizes(m, i, j + 1);
    }
  }

  lemma {:induction false} AdjacentFromNeutralizes(m: Mol, i: nat)
    requires WellFormed(m)
    ensures WellFormed(AdjacentFrom(m, i, true)) && Neutralizes(m, AdjacentFrom(m, i, true))
    decreases |m.atoms| - i
  {
    if i >= |m.atoms| {
      NeutralizesRefl(m);
    } else {
      var m1 := if m.atoms[i].charge != 0 then NeighbourPass(m, i, 0, true) else m;
      if m.atoms[i].charge != 0 {
        NeighbourPassNeutralizes(m, i, 0);
      } else {
        NeutralizesRefl(m);
      }
      AdjacentFromNeutralizes(m1, i + 1);
      NeutralizesTrans(m, m1, AdjacentFrom(m1, i + 1, true));
    }
  }

  /** The corrected fix_adjacent_charges moves every charge toward zero and
      never past it, raises bond orders only, and trades each unit of charge
      for half a bond-order step; radicals, lone pairs and labels are kept. */
  lemma AdjacentChargesSound(m: Mol)
    requires WellFormed(m)
    ensures WellFormed(AdjacentCharges(m)) && Neutralizes(m, AdjacentCharges(m))
  {
    AdjacentFromNeutralizes(m, 0);
  }

  /** m' differs from m only in charges and in bond orders that went up; the
      radical count is kept, and the total charge magnitude does not grow and
      falls by no more than the total bond order rose. */
  predicate Discharges(m: Mol, m': Mol)
  {
    && |m'.atoms| == |m.atoms| && m'.multiplicity == m.multiplicity
    && m'.bonds.Keys == m.bonds.Keys
    && (forall i | 0 <= i < |m.atoms| :: m'.atoms[i] == m.atoms[i].(charge := m'.atoms[i].charge))
    && (forall e | e in m.bonds :: m'.bonds[e] >= m.bonds[e])
    && 0 <= AbsChargeSum(m.atoms) - AbsChargeSum(m'.atoms) <= TotalOrder(m') - TotalOrder(m)
    && RadicalCount(m') == RadicalCount(m)
  }

  /** One step of the pass as written: only the neighbour is known to be
      charged. */
  lemma DischargeStep(m: Mol, i: nat, j: nat)
    requires WellFormed(m) && i < |m.atoms| && j < |m.atoms| && HasBond(m, i, j)
    requires m.atoms[j].charge != 0
    ensures WellFormed(Neutralize(m, i, j)) && Discharges(m, Neutralize(m, i, j))
  {
    NeutralizeAtoms(m, i, j);
    NeutralizeTotals(m, i, j);
  }

  lemma {:induction false} NeighbourPassDischarges(m: Mol, i: nat, j: nat)
    requires WellFormed(m) && i < |m.atoms|
    ensures WellFormed(NeighbourPass(m, i, j, false)) && Discharges(m, NeighbourPass(m, i, j, false))
    decreases |m.atoms| - j
  {
    if j >= |m.atoms| {
    } else if HasBond(m, i, j) && m.atoms[j].charge != 0 {
      var m1 := Neutralize(m, i, j);
      DischargeStep(m, i, j);
      NeighbourPassDischarges(m1, i, j + 1);
    } else {
      NeighbourPassDischarges(m, i, j + 1);
    }
  }

  lemma {:induction false} AdjacentFromDischarges(m: Mol, i: nat)
    requires WellFormed(m)
    ensures WellFormed(AdjacentFrom(m, i, false)) && Discharges(m, AdjacentFrom(m, i, false))
    decreases |m.atoms| - i
  {
    if i < |m.atoms| {
      var m1 := if m.atoms[i].charge != 0 then NeighbourPass(m, i, 0, false) else m;
      if m.atoms[i].charge != 0 {
        NeighbourPassDischarges(m, i, 0);
      }
      AdjacentFromDischarges(m1, i + 1);
    }
  }

  /** fix_adjacent_charges as written raises bond orders only, keeps radicals,
      lone pairs and labels, and never adds to the total charge magnitude:
      each bond step removes two units of charge, or none when the atom it
      starts from was already neutral. */
  lemma AdjacentChargesAsWrittenSound(m: Mol)
    requires WellFormed(m)
    ensures WellFormed(AdjacentChargesAsWritten(m)) && Discharges(m, AdjacentChargesAsWritten(m))
  {
    AdjacentFromDischarges(m, 0);
  }

  /** Three atoms: a cation bonded to two anions. */
  function CationBetweenAnions(): Mol
  {
    var c := Atom(6, 4, 1, 0, 0, "");
    var a := Atom(8, 2, -1, 0, 3, "");
    Mol([c, a, a], map[Edge(0, 1) := SINGLE, Edge(0, 2) := SINGLE], 1)
  }

  /** As written, the cation is neutralised by its first anion neighbour and
      then pushed on to -1 by the second: its charge crosses zero. */
  lemma AsWrittenCrossesZero()
    ensures CationBetweenAnions().atoms[0].charge == 1
    ensures AdjacentChargesAsWritten(CationBetweenAnions()).atoms[0].charge == -1
    ensures !Neutralizes(CationBetweenAnions(), AdjacentChargesAsWritten(CationBetweenAnions()))
  {
    var m := CationBetweenAnions();
    assert HasBond(m, 0, 1) && !HasBond(m, 0, 0);
    var m1 := Neutralize(m, 0, 1);
    assert m1.atoms[0].charge == 0 && m1.atoms[1].charge == 0 && m1.atoms[2].charge == -1;
    assert HasBond(m1, 0, 2);
    var m2 := Neutralize(m1, 0, 2);
    assert m2.atoms[0].charge == -1 && m2.atoms[1].charge == 0 && m2.atoms[2].charge == 0;
    assert NeighbourPass(m2, 0, 3, false) == m2;
    assert NeighbourPass(m1, 0, 2, false) == m2;
    assert NeighbourPass(m, 0, 1, false) == m2;
    assert NeighbourPass(m, 0, 0, false) == m2;
    assert AdjacentFrom(m2, 3, false) == m2;
    assert AdjacentFrom(m2, 2, false) == m2;
    assert AdjacentFrom(m2, 1, false) == m2;
  }

  /** The corrected pass leaves the cation neutral and one anion charged. */
  lemma CorrectedStopsAtZero()
    ensures AdjacentCharges(CationBetweenAnions()).atoms[0].charge == 0
    ensures AdjacentCharges(CationBetweenAnions()).atoms[2].charge == -1
  {
    var m := CationBetweenAnions();
    assert HasBond(m, 0, 1) && !HasBond(m, 0, 0);
    var m1 := Neutralize(m, 0, 1);
    assert m1.atoms[0].charge == 0 && m1.atoms[1].charge == 0 && m1.atoms[2].charge == -1;
    assert NeighbourPass(m1, 0, 3, true) == m1;
    assert NeighbourPass(m1, 0, 2, true) == m1;
    assert NeighbourPass(m, 0, 0, true) == m1;
    assert HasBond(m1, 2, 0) && !HasBond(m1, 2, 1) && !HasBond(m1, 2, 2);
    assert NeighbourPass(m1, 2, 0, true) == m1;
    assert AdjacentFrom(m1, 3, true) == m1;
    assert AdjacentFrom(m1, 2, true) == m1;
    assert AdjacentFrom(m1, 1, true) == m1;
  }

  /** fix_adjacent_charges on the molecule object: the atom's own charge is
      tested once, before its neighbour loop. */
  method FixAdjacentCharges(mol: Molecule)
    modifies mol
    ensures mol.State() == AdjacentChargesAsWritten(old(mol.State()))
  {
    ghost var m0 := mol.State();
    var i := 0;
    while i < |mol.atoms|
      invariant 0 <= i <= |mol.atoms|
      invariant AdjacentFrom(mol.State(), i, false) == AdjacentFrom(m0, 0, false)
    {
      if mol.atoms[i].charge != 0 {
        ghost var mi := mol.State();
        var j := 0;
        while j < |mol.atoms|
          invariant 0 <= j <= |mol.atoms| == |mi.atoms|
          invariant NeighbourPass(mol.State(), i, j, false) == NeighbourPass(mi, i, 0, false)
        {
          if HasBond(mol.State(), i, j) && mol.atoms[j].charge != 0 {
            mol.IncrementOrder(i, j);
            var a := mol.atoms[i];
            mol.SetAtom(i, a.(charge := TowardZero(a.charge)));
            var b := mol.atoms[j];
            mol.SetAtom(j, b.(charge := TowardZero(b.charge)));
          }
          j := j + 1;
        }
      }
      i := i + 1;
    }
  }
}
