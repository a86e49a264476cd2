/**
 * convert_delocalized_charge_to_unpaired_electron and its two path
 * conversions: the 4-atom-3-bond path [X=X-X=X+] that is always taken when
 * found, and the 3-atom-2-bond path [X=X-X+] that is tried through a
 * reaction recipe and rolled back when it overfills an oxygen.
 */
module Delocalization {
  import opened Wrappers
  import opened MolGraph
  import opened PendingIndices
  import opened PathFinder
  import opened Recipe
  import opened Checks

  // ---------------------------------------------------------------- convert_4_atom_3_bond_path

  /** The start atom gains an unpaired electron, the end atom moves one unit
      of charge toward zero and gains a lone pair, and the path is inverted. */
  function Convert4(m: Mol, p: seq<nat>): Mol
    requires IsPath(m, p)
  {
    var s, e := p[0], Last(p);
    var m1 := AddRadical(m, s, 1);
    var m2 := WithAtom(m1, e, m1.atoms[e].(charge := TowardZero(m1.atoms[e].charge), lonePairs := m1.atoms[e].lonePairs + 1));
    Flip(m2, p)
  }

  /** convert_4_atom_3_bond_path(start): the new molecule and whether a path was found. */
  function Convert4Step(m: Mol, pf: PathFinder, s: nat): (Mol, bool)
    requires Sound(pf)
  {
    match pf.butadieneEndWithCharge(m, s)
    case Some(p) => (Convert4(m, p), true)
    case None => (m, false)
  }

  /** On an alternating path that ends on a charged atom: one radical more,
      one bond-order step less, one unit of charge magnitude less; the start
      atom's valence balance is kept, and so is the end atom's when its charge
      is positive (a negative end charge leaves it 4 half-units over). */
  lemma Convert4Effect(m: Mol, s: nat, p: seq<nat>)
    requires WellFormed(m) && IsButadienePath(m, s, p) && EndsCharged(m, p)
    ensures var m' := Convert4(m, p);
      && WellFormed(m') && |m'.atoms| == |m.atoms| && m'.multiplicity == m.multiplicity
      && m'.bonds.Keys == m.bonds.Keys
      && RadicalCount(m') == RadicalCount(m) + 1
      && TotalOrder(m') == TotalOrder(m) - UNIT
      && AbsChargeSum(m'.atoms) == AbsChargeSum(m.atoms) - 1
      && (forall i | 0 <= i < |m.atoms| :: Balance(m', i) == Balance(m, i)
            + (if i == Last(p) && m.atoms[i].charge < 0 then 2 * UNIT else 0))
  {
    var e := Last(p);
    var a := m.atoms[s].(radicals := m.atoms[s].radicals + 1);
    var m1 := AddRadical(m, s, 1);
    WithAtomEffect(m, s, a);
    var b := m1.atoms[e].(charge := TowardZero(m1.atoms[e].charge), lonePairs := m1.atoms[e].lonePairs + 1);
    var m2 := WithAtom(m1, e, b);
    WithAtomEffect(m1, e, b);
    assert IsPath(m2, p);
    FlipShape(m2, p);
    FlipTotal(m2, p);
    forall i | 0 <= i < |m.atoms| ensures Balance(Convert4(m, p), i) == Balance(m, i)
      + (if i == e && m.atoms[i].charge < 0 then 2 * UNIT else 0)
    {
      FlipSum(m2, p, i);
    }
  }

  method Convert4Atom3BondPath(mol: Molecule, pf: PathFinder, s: nat) returns (found: bool)
    requires Sound(pf)
    modifies mol
    ensures (mol.State(), found) == Convert4Step(old(mol.State()), pf, s)
  {
    var path := pf.butadieneEndWithCharge(mol.State(), s);
    if path.None? {
      return false;
    }
    var p := path.value;
    var a := mol.atoms[s];
    mol.SetAtom(s, a.(radicals := a.radicals + 1));
    var e := p[|p| - 1];
    var b := mol.atoms[e];
    mol.SetAtom(e, b.(charge := TowardZero(b.charge), lonePairs := b.lonePairs + 1));
    InvertPath(mol, p);
    return true;
  }

  // ---------------------------------------------------------------- atom labels

  /** str(k) */
  function Digits(k: nat): string
  {
    if k < 10 then [(48 + k) as char] else Digits(k / 10) + [(48 + k % 10) as char]
  }

  /** Sets the labels of the path atoms p[k..]: str(position) or, with blank, ''. */
  function LabelsFrom(m: Mol, p: seq<nat>, k: nat, blank: bool): (r: Mol)
    requires forall l | 0 <= l < |p| :: p[l] < |m.atoms|
    ensures |r.atoms| == |m.atoms| && r.bonds == m.bonds && r.multiplicity == m.multiplicity
    decreases |p| - k
  {
    if k >= |p| then m
    else LabelsFrom(WithAtom(m, p[k], m.atoms[p[k]].(scratchLabel := if blank then "" else Digits(k))), p, k + 1, blank)
  }

  /** Labelling touches nothing but the labels of the path atoms, and blanking
      leaves each of them ''. */
  lemma {:induction false} LabelsEffect(m: Mol, p: seq<nat>, k: nat, blank: bool)
    requires k <= |p| && forall l | 0 <= l < |p| :: p[l] < |m.atoms|
    ensures var r := LabelsFrom(m, p, k, blank);
      && (forall i | 0 <= i < |m.atoms| :: r.atoms[i].(scratchLabel := "") == m.atoms[i].(scratchLabel := ""))
      && (forall i | 0 <= i < |m.atoms| && i !in p[k..] :: r.atoms[i] == m.atoms[i])
      && (blank ==> forall i | 0 <= i < |m.atoms| && i in p[k..] :: r.atoms[i].scratchLabel == "")
    decreases |p| - k
  {
    if k < |p| {
      var m1 := WithAtom(m, p[k], m.atoms[p[k]].(scratchLabel := if blank then "" else Digits(k)));
      LabelsEffect(m1, p, k + 1, blank);
      assert p[k..] == [p[k]] + p[k + 1..];
    }
  }

  /** Blanking the labels after writing them is the same as blanking them. */
  lemma ClearAfterLabel(m: Mol, p: seq<nat>)
    requires forall l | 0 <= l < |p| :: p[l] < |m.atoms|
    ensures LabelsFrom(LabelsFrom(m, p, 0, false), p, 0, true) == LabelsFrom(m, p, 0, true)
  {
    var m1 := LabelsFrom(m, p, 0, false);
    LabelsEffect(m, p, 0, false);
    LabelsEffect(m1, p, 0, true);
    LabelsEffect(m, p, 0, true);
    assert LabelsFrom(m1, p, 0, true).atoms == LabelsFrom(m, p, 0, true).atoms;
  }

  method SetLabels(mol: Molecule, p: seq<nat>, blank: bool)
    requires forall l | 0 <= l < |p| :: p[l] < |mol.atoms|
    modifies mol
    ensures mol.State() == LabelsFrom(old(mol.State()), p, 0, blank)
  {
    ghost var m0 := mol.State();
    var k := 0;
    while k < |p|
      invariant 0 <= k <= |p| && |mol.atoms| == |m0.atoms|
      invariant LabelsFrom(mol.State(), p, k, blank) == LabelsFrom(m0, p, 0, blank)
    {
      var at := mol.atoms[p[k]];
      mol.SetAtom(p[k], at.(scratchLabel := if blank then "" else Digits(k)));
      k := k + 1;
    }
  }

  // ---------------------------------------------------------------- convert_3_atom_2_bond_path

  /** Three path atoms, each bond of the path present. */
  predicate AllylShape(m: Mol, p: seq<nat>)
  {
    IsPath(m, p) && |p| == 3
  }

  /** The recipe of the trial: GAIN_RADICAL on the start atom, CHANGE_BOND -1
      on the first bond and CHANGE_BOND +1 on the second. */
  function AllylRecipe(p: seq<nat>): seq<Action>
    requires |p| == 3
  {
    [GainRadical(p[0], 1), ChangeBond(p[0], -1, p[1]), ChangeBond(p[1], 1, p[2])]
  }

  /** The molecule after labelling, the end-charge change and applyForward. */
  function Trial(m: Mol, p: seq<nat>): Mol
    requires AllylShape(m, p)
  {
    var m1 := LabelsFrom(m, p, 0, false);
    var e := p[2];
    var m2 := WithAtom(m1, e, m1.atoms[e].(charge := TowardZero(m1.atoms[e].charge)));
    assert AllApplicable(m2, AllylRecipe(p));
    Forward(m2, AllylRecipe(p))
  }

  /** The loop over the candidate paths: the first trial that passes is kept
      with its labels blanked; a failing trial is undone and only the blanked
      labels remain. */
  function AllylFrom(m: Mol, ps: seq<seq<nat>>): (Mol, bool)
    requires forall k | 0 <= k < |ps| :: AllylShape(m, ps[k])
    decreases |ps|
  {
    if ps == [] then (m, false)
    else
      var t := Trial(m, ps[0]);
      if OxygenOrdersValid(t) then (LabelsFrom(t, ps[0], 0, true), true)
      else
        var m1 := LabelsFrom(m, ps[0], 0, true);
        AllylShapeFrame(m, m1, ps[1..]);
        AllylFrom(m1, ps[1..])
  }

  lemma AllylShapeFrame(m: Mol, m': Mol, ps: seq<seq<nat>>)
    requires |m'.atoms| == |m.atoms| && m'.bonds.Keys == m.bonds.Keys
    requires forall k | 0 <= k < |ps| :: AllylShape(m, ps[k])
    ensures forall k | 0 <= k < |ps| :: AllylShape(m', ps[k])
  {
    forall k | 0 <= k < |ps| ensures AllylShape(m', ps[k]) {
      PathFrame(m, m', ps[k]);
    }
  }

  /** convert_3_atom_2_bond_path(start, mol). */
  function Convert3Step(m: Mol, pf: PathFinder, s: nat): (Mol, bool)
    requires Sound(pf)
  {
    var ps := pf.allylEndWithCharge(m, s);
    assert forall k | 0 <= k < |ps| :: ps[k] in ps;
    AllylFrom(m, ps)
  }

  lemma ForwardThree(m: Mol, r: seq<Action>)
    requires |r| == 3 && AllApplicable(m, r)
    ensures Forward(m, r) == Apply(Apply(Apply(m, r[0]), r[1]), r[2])
  {
    var r2, r1 := r[..2], r[..1];
    assert r2[..1] == r1 && r1[..0] == [];
    assert Forward(m, r1) == Apply(m, r[0]);
    assert Forward(m, r2) == Apply(Forward(m, r1), r[1]);
  }

  /** Writing labels changes no count and no valence balance. */
  lemma LabelsKeepCounts(m: Mol, p: seq<nat>, blank: bool)
    requires forall l | 0 <= l < |p| :: p[l] < |m.atoms|
    ensures var m1 := LabelsFrom(m, p, 0, blank);
      && (WellFormed(m) ==> WellFormed(m1))
      && RadicalCount(m1) == RadicalCount(m) && AbsChargeSum(m1.atoms) == AbsChargeSum(m.atoms)
      && TotalOrder(m1) == TotalOrder(m)
      && (forall i | 0 <= i < |m.atoms| :: Balance(m1, i) == Balance(m, i))
  {
    var m1 := LabelsFrom(m, p, 0, blank);
    LabelsEffect(m, p, 0, blank);
    SameBondsEffect(m, m1);
    forall i | 0 <= i < |m.atoms| ensures m1.atoms[i].radicals == m.atoms[i].radicals
      && m1.atoms[i].charge == m.atoms[i].charge && m1.atoms[i].lonePairs == m.atoms[i].lonePairs
      && m1.atoms[i].valence == m.atoms[i].valence
    {
      assert m1.atoms[i].(scratchLabel := "") == m.atoms[i].(scratchLabel := "");
    }
    RadicalSumSame(m.atoms, m1.atoms);
    AbsChargeSumSame(m.atoms, m1.atoms);
  }

  /** The three states of applyForward on the allyl recipe. */
  lemma RecipeSteps(m: Mol, p: seq<nat>)
    requires WellFormed(m) && AllylShape(m, p)
    ensures AllApplicable(m, AllylRecipe(p))
    ensures var m3 := AddRadical(m, p[0], 1);
      var m4 := WithOrderChange(m3, p[0], p[1], -UNIT);
      Forward(m, AllylRecipe(p)) == WithOrderChange(m4, p[1], p[2], UNIT)
  {
    ForwardThree(m, AllylRecipe(p));
  }

  /** applyForward of the allyl recipe keeps the shape of the molecule and
      every charge. */
  lemma RecipeShape(m: Mol, p: seq<nat>)
    requires WellFormed(m) && AllylShape(m, p)
    ensures AllApplicable(m, AllylRecipe(p))
    ensures var t := Forward(m, AllylRecipe(p));
      && WellFormed(t) && |t.atoms| == |m.atoms| && t.multiplicity == m.multiplicity
      && t.bonds.Keys == m.bonds.Keys
      && t.atoms == m.atoms[p[0] := m.atoms[p[0]].(radicals := m.atoms[p[0]].radicals + 1)]
  {
    RecipeSteps(m, p);
    assert p[0] != p[1] && p[1] != p[2];
    var m3 := AddRadical(m, p[0], 1);
    var m4 := WithOrderChange(m3, p[0], p[1], -UNIT);
    assert WellFormed(m3);
    OrderChangeEffect(m3, p[0], p[1], -UNIT);
    OrderChangeEffect(m4, p[1], p[2], UNIT);
  }

  /** applyForward of the allyl recipe adds one radical and keeps the total
      bond order. */
  lemma RecipeCounts(m: Mol, p: seq<nat>)
    requires WellFormed(m) && AllylShape(m, p)
    ensures AllApplicable(m, AllylRecipe(p))
    ensures var t := Forward(m, AllylRecipe(p));
      && RadicalCount(t) == RadicalCount(m) + 1
      && TotalOrder(t) == TotalOrder(m)
      && AbsChargeSum(t.atoms) == AbsChargeSum(m.atoms)
  {
    RecipeRadicals(m, p);
    RecipeTotal(m, p);
  }

  lemma RecipeRadicals(m: Mol, p: seq<nat>)
    requires WellFormed(m) && AllylShape(m, p)
    ensures AllApplicable(m, AllylRecipe(p))
    ensures var t := Forward(m, AllylRecipe(p));
      RadicalCount(t) == RadicalCount(m) + 1 && AbsChargeSum(t.atoms) == AbsChargeSum(m.atoms)
  {
    RecipeSteps(m, p);
    var a := m.atoms[p[0]].(radicals := m.atoms[p[0]].radicals + 1);
    var m3 := AddRadical(m, p[0], 1);
    WithAtomEffect(m, p[0], a);
    assert Forward(m, AllylRecipe(p)).atoms == m3.atoms;
  }

  lemma RecipeTotal(m: Mol, p: seq<nat>)
    requires WellFormed(m) && AllylShape(m, p)
    ensures AllApplicable(m, AllylRecipe(p))
    ensures TotalOrder(Forward(m, AllylRecipe(p))) == TotalOrder(m)
  {
    RecipeSteps(m, p);
    assert p[0] != p[1] && p[1] != p[2];
    var a := m.atoms[p[0]].(radicals := m.atoms[p[0]].radicals + 1);
    var m3 := AddRadical(m, p[0], 1);
    var m4 := WithOrderChange(m3, p[0], p[1], -UNIT);
    var m5 := WithOrderChange(m4, p[1], p[2], UNIT);
    WithAtomEffect(m, p[0], a);
    assert WellFormed(m3) && TotalOrder(m3) == TotalOrder(m);
    OrderChangeEffect(m3, p[0], p[1], -UNIT);
    assert WellFormed(m4) && TotalOrder(m4) == TotalOrder(m3) - UNIT;
    OrderChangeEffect(m4, p[1], p[2], UNIT);
    assert TotalOrder(m5) == TotalOrder(m4) + UNIT;
  }

  /** applyForward of the allyl recipe moves one step of bond order from the
      start atom to the end atom. */
  lemma RecipeOrderSum(m: Mol, p: seq<nat>, i: nat)
    requires WellFormed(m) && AllylShape(m, p)
    ensures AllApplicable(m, AllylRecipe(p))
    ensures OrderSum(Forward(m, AllylRecipe(p)), i) == OrderSum(m, i)
      + (if i == p[0] then -UNIT else if i == p[2] then UNIT else 0)
  {
    RecipeSteps(m, p);
    assert p[0] != p[1] && p[1] != p[2] && p[0] != p[2];
    var a := m.atoms[p[0]].(radicals := m.atoms[p[0]].radicals + 1);
    var m3 := AddRadical(m, p[0], 1);
    var m4 := WithOrderChange(m3, p[0], p[1], -UNIT);
    var m5 := WithOrderChange(m4, p[1], p[2], UNIT);
    WithAtomEffect(m, p[0], a);
    assert OrderSum(m3, i) == OrderSum(m, i);
    OrderChangeEffect(m3, p[0], p[1], -UNIT);
    assert OrderSum(m4, i) == OrderSum(m3, i) + (if i == p[0] || i == p[1] then -UNIT else 0);
    OrderChangeEffect(m4, p[1], p[2], UNIT);
    assert OrderSum(m5, i) == OrderSum(m4, i) + (if i == p[1] || i == p[2] then UNIT else 0);
  }

  /** applyForward of the allyl recipe keeps every atom's valence balance
      except the end atom's, which the bond step raises by one unit. */
  lemma RecipeBalance(m: Mol, p: seq<nat>, i: nat)
    requires WellFormed(m) && AllylShape(m, p) && i < |m.atoms|
    ensures AllApplicable(m, AllylRecipe(p))
    ensures Balance(Forward(m, AllylRecipe(p)), i) == Balance(m, i) + (if i == p[2] then UNIT else 0)
  {
    RecipeShape(m, p);
    RecipeOrderSum(m, p, i);
  }

  /** A trial adds one radical to the start atom, moves one bond-order step
      from the first bond to the second and one unit of the end atom's charge
      toward zero: total bond order is kept, the start and middle atoms keep
      their valence balance, and so does the end atom when its charge is
      positive. */
  lemma TrialEffect(m: Mol, p: seq<nat>)
    requires WellFormed(m) && AllylShape(m, p) && m.atoms[p[2]].charge != 0
    ensures var t := Trial(m, p);
      && WellFormed(t) && |t.atoms| == |m.atoms| && t.multiplicity == m.multiplicity
      && t.bonds.Keys == m.bonds.Keys
      && RadicalCount(t) == RadicalCount(m) + 1
      && TotalOrder(t) == TotalOrder(m)
      && AbsChargeSum(t.atoms) == AbsChargeSum(m.atoms) - 1
      && (forall i | 0 <= i < |m.atoms| :: Balance(t, i) == Balance(m, i)
            + (if i == p[2] && m.atoms[i].charge < 0 then 2 * UNIT else 0))
  {
    var m1 := LabelsFrom(m, p, 0, false);
    LabelsKeepCounts(m, p, false);
    LabelsEffect(m, p, 0, false);
    var e := p[2];
    assert m1.atoms[e].charge == m.atoms[e].charge by {
      assert m1.atoms[e].(scratchLabel := "") == m.atoms[e].(scratchLabel := "");
    }
    var b := m1.atoms[e].(charge := TowardZero(m1.atoms[e].charge));
    var m2 := WithAtom(m1, e, b);
    WithAtomEffect(m1, e, b);
    PathFrame(m, m2, p);
    RecipeShape(m2, p);
    RecipeCounts(m2, p);
    forall i | 0 <= i < |m.atoms| ensures Balance(Trial(m, p), i) == Balance(m, i)
      + (if i == e && m.atoms[i].charge < 0 then 2 * UNIT else 0)
    {
      RecipeBalance(m2, p, i);
    }
  }

  /** The trial writes labels only through its labelling step. */
  lemma TrialLabels(m: Mol, p: seq<nat>)
    requires WellFormed(m) && AllylShape(m, p)
    ensures forall i | 0 <= i < |m.atoms| ::
      Trial(m, p).atoms[i].scratchLabel == LabelsFrom(m, p, 0, false).atoms[i].scratchLabel
  {
    var m1 := LabelsFrom(m, p, 0, false);
    var e := p[2];
    var m2 := WithAtom(m1, e, m1.atoms[e].(charge := TowardZero(m1.atoms[e].charge)));
    PathFrame(m, m2, p);
    RecipeShape(m2, p);
  }

  /** Blanking labels keeps the oxygen test's verdict. */
  lemma BlankKeepsValidity(m: Mol, p: seq<nat>)
    requires forall l | 0 <= l < |p| :: p[l] < |m.atoms|
    ensures OxygenOrdersValid(LabelsFrom(m, p, 0, true)) == OxygenOrdersValid(m)
  {
    var m1 := LabelsFrom(m, p, 0, true);
    LabelsEffect(m, p, 0, true);
    SameBondsEffect(m, m1);
    forall i | 0 <= i < |m.atoms| ensures m1.atoms[i].number == m.atoms[i].number {
      assert m1.atoms[i].(scratchLabel := "") == m.atoms[i].(scratchLabel := "");
    }
  }

  /** m' is m with some labels blanked and nothing else changed. */
  predicate OnlyBlanked(m: Mol, m': Mol)
  {
    && |m'.atoms| == |m.atoms| && m'.bonds == m.bonds && m'.multiplicity == m.multiplicity
    && forall i | 0 <= i < |m.atoms| ::
         && m'.atoms[i].(scratchLabel := "") == m.atoms[i].(scratchLabel := "")
         && (m'.atoms[i].scratchLabel == m.atoms[i].scratchLabel || m'.atoms[i].scratchLabel == "")
  }

  lemma BlankIsOnlyBlanked(m: Mol, p: seq<nat>)
    requires forall l | 0 <= l < |p| :: p[l] < |m.atoms|
    ensures OnlyBlanked(m, LabelsFrom(m, p, 0, true))
    ensures forall l | 0 <= l < |p| :: LabelsFrom(m, p, 0, true).atoms[p[l]].scratchLabel == ""
  {
    LabelsEffect(m, p, 0, true);
    forall l | 0 <= l < |p| ensures p[l] in p[0..] {
      assert p[0..] == p;
    }
  }

  /** Blanking labels keeps validity of the paths and the end charges. */
  lemma OnlyBlankedKeeps(m: Mol, m': Mol, ps: seq<seq<nat>>)
    requires OnlyBlanked(m, m')
    requires forall k | 0 <= k < |ps| :: AllylShape(m, ps[k]) && m.atoms[ps[k][2]].charge != 0
    ensures forall k | 0 <= k < |ps| :: AllylShape(m', ps[k]) && m'.atoms[ps[k][2]].charge != 0
  {
    AllylShapeFrame(m, m', ps);
    forall k | 0 <= k < |ps| ensures m'.atoms[ps[k][2]].charge != 0 {
      var i := ps[k][2];
      assert m'.atoms[i].(scratchLabel := "") == m.atoms[i].(scratchLabel := "");
    }
  }

  lemma OnlyBlankedCounts(m: Mol, m': Mol)
    requires OnlyBlanked(m, m')
    ensures WellFormed(m) ==> WellFormed(m')
    ensures RadicalCount(m') == RadicalCount(m) && AbsChargeSum(m'.atoms) == AbsChargeSum(m.atoms)
    ensures TotalOrder(m') == TotalOrder(m)
  {
    SameBondsEffect(m, m');
    forall i | 0 <= i < |m.atoms| ensures m'.atoms[i].radicals == m.atoms[i].radicals
      && m'.atoms[i].charge == m.atoms[i].charge
    {
      assert m'.atoms[i].(scratchLabel := "") == m.atoms[i].(scratchLabel := "");
    }
    RadicalSumSame(m.atoms, m'.atoms);
    AbsChargeSumSame(m.atoms, m'.atoms);
  }

  /** When every trial fails, only labels change: those of all path atoms are ''. */
  lemma {:induction false} AllylNotFound(m: Mol, ps: seq<seq<nat>>)
    requires WellFormed(m)
    requires forall k | 0 <= k < |ps| :: AllylShape(m, ps[k]) && m.atoms[ps[k][2]].charge != 0
    ensures var (m', found) := AllylFrom(m, ps);
      !found ==>
        && OnlyBlanked(m, m')
        && (forall k, l | 0 <= k < |ps| && 0 <= l < 3 :: m'.atoms[ps[k][l]].scratchLabel == "")
    decreases |ps|
  {
    if ps != [] && !OxygenOrdersValid(Trial(m, ps[0])) {
      var m1 := LabelsFrom(m, ps[0], 0, true);
      FailedTrial(m, ps);
      AllylNotFound(m1, ps[1..]);
      var r := AllylFrom(m1, ps[1..]);
      if !r.1 {
        OnlyBlankedTrans(m, m1, r.0);
        forall k, l | 0 <= k < |ps| && 0 <= l < 3 ensures r.0.atoms[ps[k][l]].scratchLabel == "" {
          if k > 0 {
            assert ps[k] == ps[1..][k - 1];
          } else {
            assert r.0.atoms[ps[0][l]].scratchLabel == r.0.atoms[ps[0][l]].scratchLabel;
          }
        }
      }
    }
  }

  /** A failed trial leaves the path's labels blank and nothing else changed,
      and the loop goes on with the remaining paths. */
  lemma FailedTrial(m: Mol, ps: seq<seq<nat>>)
    requires WellFormed(m) && ps != []
    requires forall k | 0 <= k < |ps| :: AllylShape(m, ps[k]) && m.atoms[ps[k][2]].charge != 0
    requires !OxygenOrdersValid(Trial(m, ps[0]))
    ensures var m1 := LabelsFrom(m, ps[0], 0, true);
      && AllylFrom(m, ps) == AllylFrom(m1, ps[1..])
      && OnlyBlanked(m, m1) && WellFormed(m1)
      && RadicalCount(m1) == RadicalCount(m) && AbsChargeSum(m1.atoms) == AbsChargeSum(m.atoms)
      && TotalOrder(m1) == TotalOrder(m)
      && (forall l | 0 <= l < 3 :: m1.atoms[ps[0][l]].scratchLabel == "")
      && (forall k | 0 <= k < |ps[1..]| :: AllylShape(m1, ps[1..][k]) && m1.atoms[ps[1..][k][2]].charge != 0)
  {
    var m1 := LabelsFrom(m, ps[0], 0, true);
    BlankIsOnlyBlanked(m, ps[0]);
    OnlyBlankedCounts(m, m1);
    OnlyBlankedKeeps(m, m1, ps[1..]);
  }

  lemma OnlyBlankedTrans(m1: Mol, m2: Mol, m3: Mol)
    requires OnlyBlanked(m1, m2) && OnlyBlanked(m2, m3)
    ensures OnlyBlanked(m1, m3)
  {
    forall i | 0 <= i < |m1.atoms| ensures m3.atoms[i].(scratchLabel := "") == m1.atoms[i].(scratchLabel := "") {
      assert m2.atoms[i].(scratchLabel := "") == m1.atoms[i].(scratchLabel := "");
    }
  }

  /** When a trial is kept, the molecule is that trial with its labels
      blanked, taken after earlier failed trials blanked theirs. */
  lemma {:induction false} AllylFound(m: Mol, ps: seq<seq<nat>>)
    requires WellFormed(m)
    requires forall k | 0 <= k < |ps| :: AllylShape(m, ps[k]) && m.atoms[ps[k][2]].charge != 0
    ensures var (m', found) := AllylFrom(m, ps);
      found ==>
        && WellFormed(m') && |m'.atoms| == |m.atoms| && m'.multiplicity == m.multiplicity
        && m'.bonds.Keys == m.bonds.Keys
        && OxygenOrdersValid(m')
        && RadicalCount(m') == RadicalCount(m) + 1
        && AbsChargeSum(m'.atoms) == AbsChargeSum(m.atoms) - 1
        && TotalOrder(m') == TotalOrder(m)
        && (forall i | 0 <= i < |m.atoms| :: m'.atoms[i].scratchLabel == m.atoms[i].scratchLabel || m'.atoms[i].scratchLabel == "")
    decreases |ps|
  {
    if ps != [] {
      var p := ps[0];
      var t := Trial(m, p);
      if OxygenOrdersValid(t) {
        assert AllylFrom(m, ps) == (LabelsFrom(t, p, 0, true), true);
        FoundHere(m, p);
      } else {
        var m1 := LabelsFrom(m, p, 0, true);
        FailedTrial(m, ps);
        AllylFound(m1, ps[1..]);
        var r := AllylFrom(m1, ps[1..]);
        if r.1 {
          forall i | 0 <= i < |m.atoms|
            ensures r.0.atoms[i].scratchLabel == m.atoms[i].scratchLabel || r.0.atoms[i].scratchLabel == ""
          {
            assert m1.atoms[i].scratchLabel == m.atoms[i].scratchLabel || m1.atoms[i].scratchLabel == "";
          }
        }
      }
    }
  }

  /** The trial that passes, with its labels blanked. */
  lemma FoundHere(m: Mol, p: seq<nat>)
    requires WellFormed(m) && AllylShape(m, p) && m.atoms[p[2]].charge != 0
    requires OxygenOrdersValid(Trial(m, p))
    ensures var m' := LabelsFrom(Trial(m, p), p, 0, true);
      && WellFormed(m') && |m'.atoms| == |m.atoms| && m'.multiplicity == m.multiplicity
      && m'.bonds.Keys == m.bonds.Keys
      && OxygenOrdersValid(m')
      && RadicalCount(m') == RadicalCount(m) + 1
      && AbsChargeSum(m'.atoms) == AbsChargeSum(m.atoms) - 1
      && TotalOrder(m') == TotalOrder(m)
      && (forall i | 0 <= i < |m.atoms| :: m'.atoms[i].scratchLabel == m.atoms[i].scratchLabel || m'.atoms[i].scratchLabel == "")
  {
    var t := Trial(m, p);
    TrialEffect(m, p);
    BlankIsOnlyBlanked(t, p);
    OnlyBlankedCounts(t, LabelsFrom(t, p, 0, true));
    BlankKeepsValidity(t, p);
    TrialLabels(m, p);
    LabelsEffect(m, p, 0, false);
  }

  /** convert_3_atom_2_bond_path has two outcomes.  When it reports success,
      every oxygen's bond-order sum is below 4 and the molecule has one more
      radical, one unit of charge less and the same total bond order.  When it
      reports failure, bonds, charges, radicals and lone pairs are as on entry
      and only the path atoms' labels changed, to ''.  Either way no label
      other than '' is left behind. */
  lemma AllylOutcome(m: Mol, ps: seq<seq<nat>>)
    requires WellFormed(m)
    requires forall k | 0 <= k < |ps| :: AllylShape(m, ps[k]) && m.atoms[ps[k][2]].charge != 0
    ensures var (m', found) := AllylFrom(m, ps);
      && WellFormed(m') && |m'.atoms| == |m.atoms| && m'.multiplicity == m.multiplicity
      && m'.bonds.Keys == m.bonds.Keys
      && (found ==>
            && OxygenOrdersValid(m')
            && RadicalCount(m') == RadicalCount(m) + 1
            && AbsChargeSum(m'.atoms) == AbsChargeSum(m.atoms) - 1
            && TotalOrder(m') == TotalOrder(m))
      && (!found ==>
            && m'.bonds == m.bonds
            && (forall i | 0 <= i < |m.atoms| :: m'.atoms[i].(scratchLabel := "") == m.atoms[i].(scratchLabel := ""))
            && (forall k, l | 0 <= k < |ps| && 0 <= l < 3 :: m'.atoms[ps[k][l]].scratchLabel == ""))
      && (forall i | 0 <= i < |m.atoms| :: m'.atoms[i].scratchLabel == m.atoms[i].scratchLabel || m'.atoms[i].scratchLabel == "")
  {
    AllylFound(m, ps);
    AllylNotFound(m, ps);
    var (m', found) := AllylFrom(m, ps);
    if !found {
      OnlyBlankedCounts(m, m');
    }
  }

  /** One candidate path: label it, apply the recipe, and keep the result or
      revert it. */
  method TryAllylPath(mol: Molecule, p: seq<nat>) returns (kept: bool)
    requires WellFormed(mol.State()) && AllylShape(mol.State(), p)
    modifies mol
    ensures kept == OxygenOrdersValid(Trial(old(mol.State()), p))
    ensures mol.State() == if kept then LabelsFrom(Trial(old(mol.State()), p), p, 0, true)
                           else LabelsFrom(old(mol.State()), p, 0, true)
  {
    ghost var m0 := mol.State();
    SetLabels(mol, p, false);
    ghost var m1 := mol.State();
    var e := p[2];
    var endOriginalCharge := mol.atoms[e].charge;
    var recipe := AllylRecipe(p);
    var b := mol.atoms[e];
    mol.SetAtom(e, b.(charge := TowardZero(b.charge)));
    ghost var m2 := mol.State();
    PathFrame(m0, m2, p);
    RecipeShape(m2, p);
    ApplyForward(mol, recipe);
    assert mol.State() == Trial(m0, p);
    kept := OxygenOrdersValid(mol.State());
    if !kept {
      ReverseUndoesForward(m2, recipe);
      ApplyReverse(mol, recipe);
      var c := mol.atoms[e];
      mol.SetAtom(e, c.(charge := endOriginalCharge));
      assert mol.atoms == m1.atoms;
      ClearAfterLabel(m0, p);
    }
    SetLabels(mol, p, true);
  }

  /** One round of the loop over candidate paths. */
  lemma AllylUnfold(m: Mol, ps: seq<seq<nat>>)
    requires ps != [] && forall k | 0 <= k < |ps| :: AllylShape(m, ps[k])
    ensures AllylFrom(m, ps) ==
      if OxygenOrdersValid(Trial(m, ps[0])) then (LabelsFrom(Trial(m, ps[0]), ps[0], 0, true), true)
      else AllylFrom(LabelsFrom(m, ps[0], 0, true), ps[1..])
  {
  }

  /** The first remaining candidate path: kept, or undone with its labels
      blanked so that the loop goes on with the rest. */
  method AllylRound(mol: Molecule, ps: seq<seq<nat>>) returns (kept: bool)
    requires WellFormed(mol.State()) && ps != []
    requires forall k | 0 <= k < |ps| :: AllylShape(mol.State(), ps[k])
    modifies mol
    ensures kept ==> AllylFrom(old(mol.State()), ps) == (mol.State(), true)
    ensures !kept ==>
      && WellFormed(mol.State())
      && (forall k | 0 <= k < |ps[1..]| :: AllylShape(mol.State(), ps[1..][k]))
      && AllylFrom(mol.State(), ps[1..]) == AllylFrom(old(mol.State()), ps)
  {
    ghost var m0 := mol.State();
    AllylUnfold(m0, ps);
    kept := TryAllylPath(mol, ps[0]);
    if !kept {
      BlankIsOnlyBlanked(m0, ps[0]);
      OnlyBlankedCounts(m0, mol.State());
      AllylShapeFrame(m0, mol.State(), ps[1..]);
    }
  }

  /** convert_3_atom_2_bond_path on the molecule object. */
  method Convert3Atom2BondPath(mol: Molecule, pf: PathFinder, s: nat) returns (found: bool)
    requires Sound(pf) && WellFormed(mol.State())
    modifies mol
    ensures (mol.State(), found) == Convert3Step(old(mol.State()), pf, s)
  {
    ghost var m0 := mol.State();
    var paths := pf.allylEndWithCharge(mol.State(), s);
    assert forall k | 0 <= k < |paths| :: paths[k] in paths;
    var rest := paths;
    while rest != []
      invariant WellFormed(mol.State())
      invariant forall l | 0 <= l < |rest| :: AllylShape(mol.State(), rest[l])
      invariant AllylFrom(mol.State(), rest) == AllylFrom(m0, paths)
      decreases |rest|
    {
      var kept := AllylRound(mol, rest);
      if kept {
        return true;
      }
      rest := rest[1..];
    }
    return false;
  }

  // ---------------------------------------------------------------- convert_delocalized_charge_to_unpaired_electron

  lemma Convert4StepEffect(m: Mol, pf: PathFinder, s: nat)
    requires Sound(pf) && WellFormed(m)
    ensures var (m', found) := Convert4Step(m, pf, s);
      && WellFormed(m') && |m'.atoms| == |m.atoms| && m'.multiplicity == m.multiplicity
      && RadicalCount(m') == RadicalCount(m) + (if found then 1 else 0)
      && AbsChargeSum(m'.atoms) == AbsChargeSum(m.atoms) - (if found then 1 else 0)
  {
    match pf.butadieneEndWithCharge(m, s)
    case Some(p) => Convert4Effect(m, s, p);
    case None =>
  }

  lemma Convert3StepEffect(m: Mol, pf: PathFinder, s: nat)
    requires Sound(pf) && WellFormed(m)
    ensures var (m', found) := Convert3Step(m, pf, s);
      && WellFormed(m') && |m'.atoms| == |m.atoms| && m'.multiplicity == m.multiplicity
      && RadicalCount(m') == RadicalCount(m) + (if found then 1 else 0)
      && AbsChargeSum(m'.atoms) == AbsChargeSum(m.atoms) - (if found then 1 else 0)
  {
    var ps := pf.allylEndWithCharge(m, s);
    assert forall k | 0 <= k < |ps| :: ps[k] in ps;
    AllylOutcome(m, ps);
    var (m', found) := AllylFrom(m, ps);
    if !found {
      OnlyBlankedCounts(m, m');
    }
  }

  /** One pending index v: the 4-atom path first, then the 3-atom path.  A
      conversion trades one unit of charge for one radical, and v then leaves
      the pending list once. */
  function DelocStep(m: Mol, u: seq<int>, v: int, pf: PathFinder): (r: (Mol, seq<int>))
    requires Sound(pf) && WellFormed(m) && 1 <= v && v in u
    ensures
      && WellFormed(r.0) && |r.0.atoms| == |m.atoms| && r.0.multiplicity == m.multiplicity
      && RadicalCount(r.0) + |r.1| == RadicalCount(m) + |u|
      && AbsChargeSum(r.0.atoms) + |u| - |r.1| == AbsChargeSum(m.atoms)
      && (r.1 == u || r.1 == RemoveFirst(u, v))
  {
    Convert4StepEffect(m, pf, v - 1);
    var c4 := Convert4Step(m, pf, v - 1);
    if c4.1 then
      RemoveFirstCount(u, v);
      (c4.0, RemoveFirst(u, v))
    else Deloc3Step(m, u, v, pf)
  }

  /** The 3-atom path, tried when no 4-atom path was found. */
  function Deloc3Step(m: Mol, u: seq<int>, v: int, pf: PathFinder): (r: (Mol, seq<int>))
    requires Sound(pf) && WellFormed(m) && 1 <= v && v in u
    ensures
      && WellFormed(r.0) && |r.0.atoms| == |m.atoms| && r.0.multiplicity == m.multiplicity
      && RadicalCount(r.0) + |r.1| == RadicalCount(m) + |u|
      && AbsChargeSum(r.0.atoms) + |u| - |r.1| == AbsChargeSum(m.atoms)
      && (r.1 == u || r.1 == RemoveFirst(u, v))
  {
    Convert3StepEffect(m, pf, v - 1);
    var c3 := Convert3Step(m, pf, v - 1);
    if c3.1 then
      RemoveFirstCount(u, v);
      (c3.0, RemoveFirst(u, v))
    else (c3.0, u)
  }

  /** The loop over the copied pending list, from its remaining part todo on. */
  function DelocFrom(m: Mol, u: seq<int>, todo: seq<int>, pf: PathFinder): (Mol, seq<int>)
    requires Sound(pf) && WellFormed(m) && OneBased(todo, |m.atoms|)
    requires forall v :: Count(todo, v) <= Count(u, v)
    decreases |todo|
  {
    if todo == [] then (m, u)
    else
      CoveredHead(todo, u);
      var (m1, u1) := DelocStep(m, u, todo[0], pf);
      DelocFrom(m1, u1, todo[1..], pf)
  }

  /** convert_delocalized_charge_to_unpaired_electron(mol, u_indices). */
  function Deloc(m: Mol, u: seq<int>, pf: PathFinder): (Mol, seq<int>)
    requires Sound(pf) && WellFormed(m) && OneBased(u, |m.atoms|)
  {
    DelocFrom(m, u, u, pf)
  }

  lemma {:induction false} DelocFromEffect(m: Mol, u: seq<int>, todo: seq<int>, pf: PathFinder)
    requires Sound(pf) && WellFormed(m) && OneBased(todo, |m.atoms|)
    requires forall v :: Count(todo, v) <= Count(u, v)
    ensures var (m', u') := DelocFrom(m, u, todo, pf);
      && WellFormed(m') && |m'.atoms| == |m.atoms| && m'.multiplicity == m.multiplicity
      && RadicalCount(m') + |u'| == RadicalCount(m) + |u|
      && AbsChargeSum(m'.atoms) + |u| - |u'| == AbsChargeSum(m.atoms)
      && (forall v :: Count(u', v) <= Count(u, v))
    decreases |todo|
  {
    if todo != [] {
      var v := todo[0];
      CoveredHead(todo, u);
      var (m1, u1) := DelocStep(m, u, v, pf);
      forall w ensures Count(u1, w) <= Count(u, w) {
        CountRemoveFirst(u, v, w);
      }
      DelocFromEffect(m1, u1, todo[1..], pf);
      assert DelocFrom(m, u, todo, pf) == DelocFrom(m1, u1, todo[1..], pf);
    }
  }

  /** Every conversion turns one unit of charge into one radical and takes one
      index off the pending list, which only loses entries. */
  lemma DelocEffect(m: Mol, u: seq<int>, pf: PathFinder)
    requires Sound(pf) && WellFormed(m) && OneBased(u, |m.atoms|)
    ensures var (m', u') := Deloc(m, u, pf);
      && WellFormed(m') && |m'.atoms| == |m.atoms| && m'.multiplicity == m.multiplicity
      && RadicalCount(m') + |u'| == RadicalCount(m) + |u|
      && AbsChargeSum(m'.atoms) + |u| - |u'| == AbsChargeSum(m.atoms)
      && (forall v :: Count(u', v) <= Count(u, v))
  {
    DelocFromEffect(m, u, u, pf);
  }

  /** The body of the loop of convert_delocalized_charge_to_unpaired_electron
      for one pending index. */
  method DelocalizeIndex(mol: Molecule, u: seq<int>, index: int, pf: PathFinder) returns (u': seq<int>)
    requires Sound(pf) && WellFormed(mol.State()) && 1 <= index && index in u
    modifies mol
    ensures (mol.State(), u') == DelocStep(old(mol.State()), u, index, pf)
  {
    ghost var m0 := mol.State();
    var found := Convert4Atom3BondPath(mol, pf, index - 1);
    if found {
      return RemoveFirst(u, index);
    }
    assert DelocStep(m0, u, index, pf) == Deloc3Step(m0, u, index, pf);
    found := Convert3Atom2BondPath(mol, pf, index - 1);
    u' := if found then RemoveFirst(u, index) else u;
  }

  /** convert_delocalized_charge_to_unpaired_electron on the molecule object. */
  method ConvertDelocalizedChargeToUnpairedElectron(mol: Molecule, u: seq<int>, pf: PathFinder) returns (u': seq<int>)
    requires Sound(pf) && WellFormed(mol.State()) && OneBased(u, |mol.atoms|)
    modifies mol
    ensures (mol.State(), u') == Deloc(old(mol.State()), u, pf)
  {
    ghost var m0 := mol.State();
    var uCopy := u;
    u' := u;
    var k := 0;
    assert uCopy[0..] == uCopy;
    while k < |uCopy|
      invariant 0 <= k <= |uCopy|
      invariant WellFormed(mol.State()) && |mol.atoms| == |m0.atoms|
      invariant forall v :: Count(uCopy[k..], v) <= Count(u', v)
      invariant DelocFrom(mol.State(), u', uCopy[k..], pf) == DelocFrom(m0, u, uCopy, pf)
    {
      var index := uCopy[k];
      assert uCopy[k..][0] == index && uCopy[k..][1..] == uCopy[k + 1..];
      CoveredHead(uCopy[k..], u');
      u' := DelocalizeIndex(mol, u', index, pf);
      k := k + 1;
    }
  }
}
