/**
 * reset_lone_pairs_to_default: every atom's lone-pair count is recomputed
 * from the valence equation, keeping its bonds, radicals and charge.
 */
module LonePairs {
  import opened MolGraph

  /** Twice the free electron pairs the valence equation leaves, in half-units:
      2 * (valence - radicals - charge) - bond-order sum. */
  function Free(m: Mol, i: nat): int
    requires i < |m.atoms|
  {
    2 * (m.atoms[i].valence - m.atoms[i].radicals - m.atoms[i].charge) - OrderSum(m, i)
  }

  /** (valence - order - radicals - charge) / 2, rounded down as Python 2 does
      for integers. */
  function DefaultLonePairs(m: Mol, i: nat): int
    requires i < |m.atoms|
  {
    Free(m, i) / 4
  }

  /** The molecule after reset_lone_pairs_to_default. */
  function Reset(m: Mol): Mol
  {
    m.(atoms := seq(|m.atoms|, i requires 0 <= i < |m.atoms| =>
      m.atoms[i].(lonePairs := DefaultLonePairs(m, i))))
  }

  /** Only lone pairs change: bonds, multiplicity, radicals, charges, labels
      and every bond-order sum are kept. */
  lemma ResetFrame(m: Mol)
    ensures var r := Reset(m);
      && |r.atoms| == |m.atoms| && r.bonds == m.bonds && r.multiplicity == m.multiplicity
      && (forall i | 0 <= i < |m.atoms| :: r.atoms[i].(lonePairs := m.atoms[i].lonePairs) == m.atoms[i])
      && (forall i | 0 <= i < |m.atoms| :: OrderSum(r, i) == OrderSum(m, i))
      && RadicalCount(r) == RadicalCount(m)
  {
    var r := Reset(m);
    SameBondsEffect(m, r);
    RadicalSumSame(m.atoms, r.atoms);
  }

  /** After the reset every atom's valence defect lies in (-4, 0] half-units:
      the count chosen is the largest that does not overfill the valence, and
      the equation holds exactly when the free electrons form whole pairs. */
  lemma ResetBalance(m: Mol, i: nat)
    requires i < |m.atoms|
    ensures Balance(Reset(m), i) == -(Free(m, i) % 4)
    ensures -4 < Balance(Reset(m), i) <= 0
    ensures ValenceOk(Reset(m), i) <==> Free(m, i) % 4 == 0
  {
    ResetFrame(m);
  }

  /** The reset repairs an atom's valence equation whenever some lone-pair
      count would. */
  lemma ResetRepairs(m: Mol, i: nat, lp: int)
    requires i < |m.atoms|
    requires ValenceOk(WithAtom(m, i, m.atoms[i].(lonePairs := lp)), i)
    ensures ValenceOk(Reset(m), i)
  {
    var a := m.atoms[i].(lonePairs := lp);
    WithAtomEffect(m, i, a);
    assert Free(m, i) == 4 * lp;
    ResetBalance(m, i);
  }

  /** The reset reads only bonds, radicals and charge, so a second reset
      changes nothing. */
  lemma ResetIdempotent(m: Mol)
    ensures Reset(Reset(m)) == Reset(m)
  {
    var r := Reset(m);
    ResetFrame(m);
    ResetFrame(r);
    assert Reset(r).atoms == r.atoms;
  }

  /** reset_lone_pairs_to_default on the molecule object. */
  method ResetLonePairsToDefault(mol: Molecule)
    modifies mol
    ensures mol.State() == Reset(old(mol.State()))
  {
    ghost var m0 := mol.State();
    var k := 0;
    while k < |mol.atoms|
      invariant 0 <= k <= |mol.atoms| == |m0.atoms|
      invariant mol.bonds == m0.bonds && mol.multiplicity == m0.multiplicity
      invariant forall i | 0 <= i < k :: mol.atoms[i] == Reset(m0).atoms[i]
      invariant forall i | k <= i < |mol.atoms| :: mol.atoms[i] == m0.atoms[i]
    {
      SameBondsEffect(m0, mol.State());
      var at := mol.atoms[k];
      var free := 2 * (at.valence - at.radicals - at.charge) - OrderSum(mol.State(), k);
      mol.SetAtom(k, at.(lonePairs := free / 4));
      k := k + 1;
    }
    assert mol.atoms == Reset(m0).atoms;
  }
}
