/**
 * The two reaction-recipe actions the charge repair records before a trial
 * edit, and their reversal.  ReactionRecipe itself (rmgpy.data.kinetics) is
 * not part of this model; its actions are addressed here by atom position
 * instead of by atom label.
 */
module Recipe {
  import opened MolGraph

  /** GAIN_RADICAL(atom, count) and CHANGE_BOND(atom1, delta, atom2); delta
      counts whole order steps (one step is UNIT half-units). */
  datatype Action =
    | GainRadical(atom: nat, count: int)
    | ChangeBond(atom1: nat, delta: int, atom2: nat)

  /** The action names an atom of m, or a bond that m has. */
  predicate Applicable(m: Mol, a: Action)
  {
    match a
    case GainRadical(i, _) => i < |m.atoms|
    case ChangeBond(i, _, j) => i < |m.atoms| && j < |m.atoms| && HasBond(m, i, j)
  }

  predicate AllApplicable(m: Mol, r: seq<Action>)
  {
    forall k | 0 <= k < |r| :: Applicable(m, r[k])
  }

  function Apply(m: Mol, a: Action): Mol
    requires Applicable(m, a)
  {
    match a
    case GainRadical(i, c) => AddRadical(m, i, c)
    case ChangeBond(i, d, j) => WithOrderChange(m, i, j, d * UNIT)
  }

  /** The action applyReverse performs for a: LOSE_RADICAL for GAIN_RADICAL,
      and CHANGE_BOND with the opposite delta. */
  function Inverse(a: Action): Action
  {
    match a
    case GainRadical(i, c) => GainRadical(i, -c)
    case ChangeBond(i, d, j) => ChangeBond(i, -d, j)
  }

  /** Same atom count and same bond set: what decides applicability. */
  predicate SameShape(m: Mol, m': Mol)
  {
    |m'.atoms| == |m.atoms| && m'.bonds.Keys == m.bonds.Keys
  }

  lemma ShapeKeepsApplicable(m: Mol, m': Mol, r: seq<Action>)
    requires SameShape(m, m') && AllApplicable(m, r)
    ensures AllApplicable(m', r)
  {
    forall k | 0 <= k < |r| ensures Applicable(m', r[k]) {
      assert Applicable(m, r[k]);
    }
  }

  lemma ApplyKeepsShape(m: Mol, a: Action)
    requires Applicable(m, a)
    ensures SameShape(m, Apply(m, a))
  {
  }

  /** applyForward: the actions in recorded order. */
  function Forward(m: Mol, r: seq<Action>): (m': Mol)
    requires AllApplicable(m, r)
    ensures SameShape(m, m')
  {
    if r == [] then m
    else
      var m1 := Forward(m, r[..|r| - 1]);
      ApplyKeepsShape(m1, r[|r| - 1]);
      Apply(m1, r[|r| - 1])
  }

  /** applyReverse: the inverse actions, last recorded first. */
  function Reverse(m: Mol, r: seq<Action>): (m': Mol)
    requires AllApplicable(m, r)
    ensures SameShape(m, m')
    decreases |r|
  {
    if r == [] then m
    else
      var a := Inverse(r[|r| - 1]);
      assert Applicable(m, a);
      var m1 := Apply(m, a);
      ApplyKeepsShape(m, a);
      ShapeKeepsApplicable(m, m1, r[..|r| - 1]);
      Reverse(m1, r[..|r| - 1])
  }

  /** The inverse action undoes the action exactly. */
  lemma InverseUndoes(m: Mol, a: Action)
    requires Applicable(m, a)
    ensures Applicable(Apply(m, a), Inverse(a)) && Apply(Apply(m, a), Inverse(a)) == m
  {
    match a
    case GainRadical(i, c) =>
      assert Apply(Apply(m, a), Inverse(a)).atoms == m.atoms;
    case ChangeBond(i, d, j) =>
      var m1 := Apply(m, a);
      assert Order(m1, i, j) == Order(m, i, j) + d * UNIT;
      assert Apply(m1, Inverse(a)).bonds == m.bonds;
  }

  /** applyReverse after applyForward gives back the molecule the recipe
      started from. */
  lemma {:induction false} ReverseUndoesForward(m: Mol, r: seq<Action>)
    requires AllApplicable(m, r)
    ensures AllApplicable(Forward(m, r), r) && Reverse(Forward(m, r), r) == m
    decreases |r|
  {
    ShapeKeepsApplicable(m, Forward(m, r), r);
    if r != [] {
      var r', a := r[..|r| - 1], r[|r| - 1];
      var m1 := Forward(m, r');
      ShapeKeepsApplicable(m, m1, r);
      InverseUndoes(m1, a);
      ReverseUndoesForward(m, r');
    }
  }

  /** ReactionRecipe.applyForward on the molecule object. */
  method ApplyForward(mol: Molecule, r: seq<Action>)
    requires AllApplicable(mol.State(), r)
    modifies mol
    ensures mol.State() == Forward(old(mol.State()), r)
  {
    ghost var m0 := mol.State();
    var k := 0;
    while k < |r|
      invariant 0 <= k <= |r|
      invariant AllApplicable(m0, r[..k]) && mol.State() == Forward(m0, r[..k])
      invariant AllApplicable(m0, r)
    {
      assert r[..k + 1][..k] == r[..k];
      ShapeKeepsApplicable(m0, mol.State(), r);
      match r[k] {
        case GainRadical(i, c) =>
          var at := mol.atoms[i];
          mol.SetAtom(i, at.(radicals := at.radicals + c));
        case ChangeBond(i, d, j) =>
          mol.ChangeOrder(i, j, d * UNIT);
      }
      k := k + 1;
    }
    assert r[..k] == r;
  }

  /** ReactionRecipe.applyReverse on the molecule object. */
  method ApplyReverse(mol: Molecule, r: seq<Action>)
    requires AllApplicable(mol.State(), r)
    modifies mol
    ensures mol.State() == Reverse(old(mol.State()), r)
  {
    ghost var m0 := mol.State();
    var k := |r|;
    assert r[..k] == r;
    while k > 0
      invariant 0 <= k <= |r|
      invariant AllApplicable(mol.State(), r[..k])
      invariant Reverse(mol.State(), r[..k]) == Reverse(m0, r)
    {
      assert r[..k][..k - 1] == r[..k - 1];
      assert Applicable(mol.State(), r[..k][k - 1]);
      match Inverse(r[k - 1]) {
        case GainRadical(i, c) =>
          var at := mol.atoms[i];
          mol.SetAtom(i, at.(radicals := at.radicals + c));
        case ChangeBond(i, d, j) =>
          mol.ChangeOrder(i, j, d * UNIT);
      }
      k := k - 1;
    }
  }
}
