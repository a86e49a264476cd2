/**
 * The unsaturated-bond loop: while the radical count is short of the
 * multiplicity, a pair of pending atoms is turned into two radicals, by
 * lowering the bond between them, by moving a mobile hydrogen, or by
 * inverting a butadiene path between them.
 */
module Biradical {
  import opened Wrappers
  import opened MolGraph
  import opened PendingIndices
  import opened PathFinder
  import opened Checks

  /** Every couple of the mobile-hydrogen layer names atoms of an n-atom molecule. */
  predicate LayerInRange(hl: seq<seq<int>>, n: nat)
  {
    forall c | 0 <= c < |hl| :: OneBased(hl[c], n)
  }

  /** A method outcome r agrees with its specification: on success the state
      and the value are the specified ones; on failure the error is. */
  predicate Agrees<T(==)>(m: Mol, r: Result<T, Failure>, spec: Result<(Mol, T), Failure>)
  {
    match spec
    case Ok(v) => r == Ok(v.1) && m == v.0
    case Err(f) => r == Err(f)
  }

  /** m' gives atoms a and b one unpaired electron each (two to one atom when
      a == b) and leaves every other atom's radical count as it was. */
  predicate GainsPair(m: Mol, m': Mol, a: nat, b: nat)
  {
    && |m'.atoms| == |m.atoms|
    && forall i | 0 <= i < |m.atoms| ::
         m'.atoms[i].radicals == m.atoms[i].radicals + (if i == a then 1 else 0) + (if i == b then 1 else 0)
  }

  // ---------------------------------------------------------------- convert_unsaturated_bond_to_triplet

  /** The bond a-b, when it is not single, drops one step and each end gains
      an unpaired electron. */
  function Triplet(m: Mol, a: nat, b: nat): (Mol, bool)
    requires a < |m.atoms| && b < |m.atoms|
  {
    if Order(m, a, b) == SINGLE then (m, false)
    else (WithOrderChange(AddRadical(AddRadical(m, a, 1), b, 1), a, b, -UNIT), true)
  }

  lemma TripletCounts(m: Mol, a: nat, b: nat)
    requires a < |m.atoms| && b < |m.atoms| && a != b
    ensures var m2 := AddRadical(AddRadical(m, a, 1), b, 1);
      && RadicalCount(m2) == RadicalCount(m) + 2
      && m2.bonds == m.bonds && |m2.atoms| == |m.atoms| && m2.multiplicity == m.multiplicity
      && m2.atoms[a] == m.atoms[a].(radicals := m.atoms[a].radicals + 1)
      && m2.atoms[b] == m.atoms[b].(radicals := m.atoms[b].radicals + 1)
      && forall i | 0 <= i < |m.atoms| && i != a && i != b :: m2.atoms[i] == m.atoms[i]
  {
    var m1 := AddRadical(m, a, 1);
    RadicalSumUpdate(m.atoms, a, m.atoms[a].(radicals := m.atoms[a].radicals + 1));
    RadicalSumUpdate(m1.atoms, b, m1.atoms[b].(radicals := m1.atoms[b].radicals + 1));
  }

  /** convert_unsaturated_bond_to_triplet succeeds exactly on a bond that is
      not single; it then gives each end one unpaired electron, lowers the
      total bond order by one step and keeps every atom's valence balance. */
  lemma TripletEffect(m: Mol, a: nat, b: nat)
    requires WellFormed(m) && a < |m.atoms| && b < |m.atoms| && HasBond(m, a, b)
    ensures var (m', fixed) := Triplet(m, a, b);
      && (fixed <==> Order(m, a, b) != SINGLE)
      && (!fixed ==> m' == m)
      && WellFormed(m') && |m'.atoms| == |m.atoms| && m'.multiplicity == m.multiplicity
      && m'.bonds.Keys == m.bonds.Keys
      && (fixed ==>
            && RadicalCount(m') == RadicalCount(m) + 2
            && TotalOrder(m') == TotalOrder(m) - UNIT
            && Order(m', a, b) == Order(m, a, b) - UNIT
            && GainsPair(m, m', a, b)
            && forall i | 0 <= i < |m.atoms| :: Balance(m', i) == Balance(m, i))
  {
    if Order(m, a, b) != SINGLE {
      var m2 := AddRadical(AddRadical(m, a, 1), b, 1);
      var m' := WithOrderChange(m2, a, b, -UNIT);
      TripletCounts(m, a, b);
      SameBondsEffect(m, m2);
      OrderChangeEffect(m2, a, b, -UNIT);
      forall i | 0 <= i < |m.atoms| ensures Balance(m', i) == Balance(m, i) {
        assert OrderSum(m', i) == OrderSum(m, i) - (if i == a || i == b then UNIT else 0);
      }
    }
  }

  /** convert_unsaturated_bond_to_triplet on the molecule object. */
  method ConvertUnsaturatedBondToTriplet(mol: Molecule, a: nat, b: nat) returns (fixed: bool)
    requires a < |mol.atoms| && b < |mol.atoms|
    modifies mol
    ensures (mol.State(), fixed) == Triplet(old(mol.State()), a, b)
  {
    if Order(mol.State(), a, b) != SINGLE {
      mol.SetAtom(a, mol.atoms[a].(radicals := mol.atoms[a].radicals + 1));
      mol.SetAtom(b, mol.atoms[b].(radicals := mol.atoms[b].radicals + 1));
      mol.DecrementOrder(a, b);
      return true;
    }
    return false;
  }

  // ---------------------------------------------------------------- fix_butadiene_path

  /** A butadiene path from s to e: both ends gain an unpaired electron and
      the path's bonds are inverted. */
  function Butadiene(m: Mol, pf: PathFinder, s: nat, e: nat): (Mol, bool)
    requires s < |m.atoms| && e < |m.atoms|
  {
    match pf.butadiene(m, s, e)
    case None => (m, false)
    case Some(p) => (Flip(AddRadical(AddRadical(m, s, 1), e, 1), p), true)
  }

  /** A found path gives its two ends one unpaired electron each, lowers the
      total bond order by one step and keeps every atom's valence balance. */
  lemma ButadieneEffect(m: Mol, pf: PathFinder, s: nat, e: nat)
    requires Sound(pf) && WellFormed(m) && s < |m.atoms| && e < |m.atoms|
    ensures var (m', found) := Butadiene(m, pf, s, e);
      && (!found ==> m' == m)
      && WellFormed(m') && |m'.atoms| == |m.atoms| && m'.multiplicity == m.multiplicity
      && m'.bonds.Keys == m.bonds.Keys
      && (found ==>
            && s != e
            && RadicalCount(m') == RadicalCount(m) + 2
            && GainsPair(m, m', s, e)
            && TotalOrder(m') == TotalOrder(m) - UNIT
            && forall i | 0 <= i < |m.atoms| :: Balance(m', i) == Balance(m, i))
  {
    match pf.butadiene(m, s, e)
    case None =>
    case Some(p) =>
      assert IsButadienePath(m, s, p) && Last(p) == e;
      var m2 := AddRadical(AddRadical(m, s, 1), e, 1);
      var m' := Flip(m2, p);
      TripletCounts(m, s, e);
      SameBondsEffect(m, m2);
      PathFrame(m, m2, p);
      FlipShape(m2, p);
      FlipTotal(m2, p);
      forall i | 0 <= i < |m.atoms| ensures Balance(m', i) == Balance(m, i) {
        FlipSum(m2, p, i);
      }
  }

  /** fix_butadiene_path on the molecule object. */
  method FixButadienePath(mol: Molecule, pf: PathFinder, s: nat, e: nat) returns (found: bool)
    requires s < |mol.atoms| && e < |mol.atoms|
    modifies mol
    ensures (mol.State(), found) == Butadiene(old(mol.State()), pf, s, e)
  {
    var path := pf.butadiene(mol.State(), s, e);
    if path.None? {
      return false;
    }
    mol.SetAtom(s, mol.atoms[s].(radicals := mol.atoms[s].radicals + 1));
    mol.SetAtom(e, mol.atoms[e].(radicals := mol.atoms[e].radicals + 1));
    InvertPath(mol, path.value);
    return true;
  }

  // ---------------------------------------------------------------- find_mobile_h_system, fix_mobile_h

  /** The atoms of a keto-enol system, as 1-based indices: the central atom,
      the atom that holds the hydrogen, and its partner in the couple. */
  datatype MobileH = MobileH(central: int, original: int, partner: int)

  /** The first couple at position k or later that holds u1 or u2. */
  function CoupleFrom(hl: seq<seq<int>>, u1: int, u2: int, k: nat): (r: Option<nat>)
    ensures r.None? <==> forall c | k <= c < |hl| :: u1 !in hl[c] && u2 !in hl[c]
    ensures r.Some? ==>
      && k <= r.value < |hl| && (u1 in hl[r.value] || u2 in hl[r.value])
      && forall c | k <= c < r.value :: u1 !in hl[c] && u2 !in hl[c]
    decreases |hl| - k
  {
    if k >= |hl| then None
    else if u1 in hl[k] || u2 in hl[k] then Some(k)
    else CoupleFrom(hl, u1, u2, k + 1)
  }

  /** find_mobile_h_system(mol, couples, [u1, u2]): in the first couple that
      holds u1 or u2 (u1 checked first), that index is the original atom, the
      other one of the pair is central, and the first other member of the
      couple is the partner. */
  function MobileHSystem(hl: seq<seq<int>>, u1: int, u2: int): (r: Result<MobileH, Failure>)
    ensures r == Err(MobileHSystemNotFound) <==> forall c | 0 <= c < |hl| :: u1 !in hl[c] && u2 !in hl[c]
    ensures r.Err? ==> r.error == MobileHSystemNotFound || r.error == MobileHPartnerMissing
    ensures r == Err(MobileHPartnerMissing) ==>
      exists c | 0 <= c < |hl| :: (hl[c] == [u1] || hl[c] == [u2])
    ensures r.Ok? ==>
      && ((r.value.original == u1 && r.value.central == u2) || (r.value.original == u2 && r.value.central == u1))
      && exists c | 0 <= c < |hl| :: r.value.original in hl[c] && r.value.partner in hl[c]
  {
    match CoupleFrom(hl, u1, u2, 0)
    case None => Err(MobileHSystemNotFound)
    case Some(c) =>
      var t := if u1 in hl[c] then u1 else u2;
      var rest := RemoveFirst(hl[c], t);
      RemoveFirstCount(hl[c], t);
      RemoveFirstKeeps(hl[c], t);
      if rest == [] then
        assert hl[c] == [t] by {
          assert |hl[c]| == 1 && t in hl[c];
        }
        Err(MobileHPartnerMissing)
      else
        assert rest[0] in rest;
        Ok(MobileH(if t == u1 then u2 else u1, t, rest[0]))
  }

  /** find_mobile_h_system on the couples of the hydrogen layer. */
  method FindMobileHSystem(hl: seq<seq<int>>, u1: int, u2: int) returns (r: Result<MobileH, Failure>)
    ensures r == MobileHSystem(hl, u1, u2)
  {
    var c := 0;
    while c < |hl|
      invariant c <= |hl| && CoupleFrom(hl, u1, u2, c) == CoupleFrom(hl, u1, u2, 0)
    {
      var couple := hl[c];
      if u1 in couple || u2 in couple {
        var original := if u1 in couple then u1 else u2;
        var dummy := RemoveFirst([u1, u2], original);
        couple := RemoveFirst(couple, original);
        if couple == [] {
          return Err(MobileHPartnerMissing);
        }
        return Ok(MobileH(dummy[0], original, couple[0]));
      }
      c := c + 1;
    }
    return Err(MobileHSystemNotFound);
  }

  /** The first hydrogen bonded to atom o at position j or later. */
  function HydrogenFrom(m: Mol, o: nat, j: nat): (r: Option<nat>)
    ensures r.None? <==> forall l | j <= l < |m.atoms| :: !(HasBond(m, o, l) && m.atoms[l].number == HYDROGEN)
    ensures r.Some? ==>
      && j <= r.value < |m.atoms| && HasBond(m, o, r.value) && m.atoms[r.value].number == HYDROGEN
      && forall l | j <= l < r.value :: !(HasBond(m, o, l) && m.atoms[l].number == HYDROGEN)
    decreases |m.atoms| - j
  {
    if j >= |m.atoms| then None
    else if HasBond(m, o, j) && m.atoms[j].number == HYDROGEN then Some(j)
    else HydrogenFrom(m, o, j + 1)
  }

  /** Moving hydrogen h from o to the partner np (single bond), lowering the
      bond between the central atom c and np, and adding an unpaired electron
      to c and to o. */
  function MoveHydrogen(m: Mol, c: nat, o: nat, np: nat, h: nat): Mol
    requires c < |m.atoms| && o < |m.atoms|
  {
    var m1 := WithBond(WithoutBond(m, o, h), np, h, SINGLE);
    AddRadical(AddRadical(WithOrderChange(m1, c, np, -UNIT), c, 1), o, 1)
  }

  /** The three atoms of the system are atoms of an n-atom molecule. */
  predicate SystemIn(sys: MobileH, n: nat)
  {
    1 <= sys.central <= n && 1 <= sys.original <= n && 1 <= sys.partner <= n
  }

  lemma SystemInRange(hl: seq<seq<int>>, u1: int, u2: int, n: nat)
    requires 1 <= u1 <= n && 1 <= u2 <= n && LayerInRange(hl, n)
    ensures MobileHSystem(hl, u1, u2).Ok? ==> SystemIn(MobileHSystem(hl, u1, u2).value, n)
  {
    var r := MobileHSystem(hl, u1, u2);
    if r.Ok? {
      var c :| 0 <= c < |hl| && r.value.original in hl[c] && r.value.partner in hl[c];
      assert OneBased(hl[c], n);
    }
  }

  lemma MoveHydrogenCounts(m: Mol, c: nat, o: nat, np: nat, h: nat)
    requires c < |m.atoms| && o < |m.atoms|
    ensures var m' := MoveHydrogen(m, c, o, np, h);
      && RadicalCount(m') == RadicalCount(m) + 2
      && |m'.atoms| == |m.atoms| && m'.multiplicity == m.multiplicity
      && GainsPair(m, m', c, o)
  {
    var m1 := WithOrderChange(WithBond(WithoutBond(m, o, h), np, h, SINGLE), c, np, -UNIT);
    var m2 := AddRadical(m1, c, 1);
    RadicalSumUpdate(m1.atoms, c, m1.atoms[c].(radicals := m1.atoms[c].radicals + 1));
    RadicalSumUpdate(m2.atoms, o, m2.atoms[o].(radicals := m2.atoms[o].radicals + 1));
  }

  /** The hydrogen leaves o for the partner, and the central atom and o each
      gain an unpaired electron. */
  lemma MoveHydrogenEffect(m: Mol, c: nat, o: nat, np: nat, h: nat)
    requires WellFormed(m) && c < |m.atoms| && o < |m.atoms| && np < |m.atoms| && h < |m.atoms|
    requires np != h && HasBond(WithBond(WithoutBond(m, o, h), np, h, SINGLE), c, np)
    ensures var m' := MoveHydrogen(m, c, o, np, h);
      && WellFormed(m') && |m'.atoms| == |m.atoms| && m'.multiplicity == m.multiplicity
      && RadicalCount(m') == RadicalCount(m) + 2
      && GainsPair(m, m', c, o)
      && HasBond(m', np, h)
      && (o != np ==> !HasBond(m', o, h))
  {
    MoveHydrogenCounts(m, c, o, np, h);
    var m1 := WithBond(WithoutBond(m, o, h), np, h, SINGLE);
    assert WellFormed(m1);
    var m2 := WithOrderChange(m1, c, np, -UNIT);
    assert m2.bonds.Keys == m1.bonds.Keys;
    if o != np {
      assert Key(o, h) != Key(np, h);
    }
  }

  /** The hydrogen move of fix_mobile_h once the system is known: the first
      hydrogen of the original atom moves to the partner, or the exception the
      source raises on the way. */
  function HydrogenMove(m: Mol, sys: MobileH): (r: Result<(Mol, bool), Failure>)
    requires SystemIn(sys, |m.atoms|)
    ensures r.Ok? ==> r.value.1
  {
    var c, o, np := sys.central - 1, sys.original - 1, sys.partner - 1;
    match HydrogenFrom(m, o, 0)
    case None => Err(NoMobileHydrogen)
    case Some(h) =>
      if np == h then Err(HydrogenIsPartner)
      else if !HasBond(WithBond(WithoutBond(m, o, h), np, h, SINGLE), c, np) then Err(NoBondToPartner)
      else Ok((MoveHydrogen(m, c, o, np, h), true))
  }

  lemma HydrogenMoveEffect(m: Mol, sys: MobileH)
    requires WellFormed(m) && SystemIn(sys, |m.atoms|)
    ensures var r := HydrogenMove(m, sys);
      r.Ok? ==>
        && WellFormed(r.value.0) && |r.value.0.atoms| == |m.atoms| && r.value.0.multiplicity == m.multiplicity
        && RadicalCount(r.value.0) == RadicalCount(m) + 2
        && GainsPair(m, r.value.0, sys.central - 1, sys.original - 1)
  {
    var c, o, np := sys.central - 1, sys.original - 1, sys.partner - 1;
    var hs := HydrogenFrom(m, o, 0);
    if hs.Some? {
      var h := hs.value;
      if np != h && HasBond(WithBond(WithoutBond(m, o, h), np, h, SINGLE), c, np) {
        assert HydrogenMove(m, sys) == Ok((MoveHydrogen(m, c, o, np, h), true));
        MoveHydrogenEffect(m, c, o, np, h);
      }
    }
  }

  /** fix_mobile_h(mol, inchi, u1, u2), given the couples of the hydrogen
      layer: no change when the layer is empty, otherwise the hydrogen move or
      the exception the source raises on the way. */
  function FixMobileHStep(m: Mol, hl: seq<seq<int>>, u1: int, u2: int): (r: Result<(Mol, bool), Failure>)
    requires 1 <= u1 <= |m.atoms| && 1 <= u2 <= |m.atoms| && LayerInRange(hl, |m.atoms|)
    ensures r == Ok((m, false)) <==> hl == []
  {
    if hl == [] then Ok((m, false))
    else
      SystemInRange(hl, u1, u2, |m.atoms|);
      match MobileHSystem(hl, u1, u2)
      case Err(f) => Err(f)
      case Ok(sys) => HydrogenMove(m, sys)
  }

  lemma FixMobileHEffect(m: Mol, hl: seq<seq<int>>, u1: int, u2: int)
    requires WellFormed(m) && 1 <= u1 <= |m.atoms| && 1 <= u2 <= |m.atoms| && LayerInRange(hl, |m.atoms|)
    ensures var r := FixMobileHStep(m, hl, u1, u2);
      && (r.Err? ==> r.error != CannotCorrect)
      && (r.Ok? ==>
            && WellFormed(r.value.0) && |r.value.0.atoms| == |m.atoms| && r.value.0.multiplicity == m.multiplicity
            && RadicalCount(r.value.0) == RadicalCount(m) + (if r.value.1 then 2 else 0)
            && (r.value.1 ==> GainsPair(m, r.value.0, u1 - 1, u2 - 1)))
  {
    if hl != [] {
      SystemInRange(hl, u1, u2, |m.atoms|);
      match MobileHSystem(hl, u1, u2)
      case Err(f) =>
      case Ok(sys) => HydrogenMoveEffect(m, sys);
    }
  }

  /** The hydrogen search and move of fix_mobile_h on the molecule object. */
  method MoveMobileHydrogen(mol: Molecule, sys: MobileH) returns (r: Result<bool, Failure>)
    requires SystemIn(sys, |mol.atoms|)
    modifies mol
    ensures Agrees(mol.State(), r, HydrogenMove(old(mol.State()), sys))
  {
    ghost var m0 := mol.State();
    var c, o, np := sys.central - 1, sys.original - 1, sys.partner - 1;
    var hydrogen: Option<nat> := None;
    var l := 0;
    while l < |mol.atoms|
      invariant l <= |mol.atoms| && mol.State() == m0
      invariant HydrogenFrom(m0, o, l) == HydrogenFrom(m0, o, 0)
    {
      if HasBond(mol.State(), o, l) && mol.atoms[l].number == HYDROGEN {
        hydrogen := Some(l);
        break;
      }
      l := l + 1;
    }
    if hydrogen.None? {
      return Err(NoMobileHydrogen);
    }
    var h := hydrogen.value;
    mol.RemoveBond(o, h);
    if np == h {
      return Err(HydrogenIsPartner);
    }
    mol.AddBond(np, h, SINGLE);
    if !HasBond(mol.State(), c, np) {
      return Err(NoBondToPartner);
    }
    mol.DecrementOrder(c, np);
    mol.SetAtom(c, mol.atoms[c].(radicals := mol.atoms[c].radicals + 1));
    mol.SetAtom(o, mol.atoms[o].(radicals := mol.atoms[o].radicals + 1));
    return Ok(true);
  }

  /** fix_mobile_h on the molecule object.  The hydrogen layer is the parsed
      parse_H_layer(inchi), supplied by the caller. */
  method FixMobileH(mol: Molecule, hl: seq<seq<int>>, u1: int, u2: int) returns (r: Result<bool, Failure>)
    requires 1 <= u1 <= |mol.atoms| && 1 <= u2 <= |mol.atoms| && LayerInRange(hl, |mol.atoms|)
    modifies mol
    ensures Agrees(mol.State(), r, FixMobileHStep(old(mol.State()), hl, u1, u2))
  {
    if hl == [] {
      return Ok(false);
    }
    var sys := FindMobileHSystem(hl, u1, u2);
    if sys.Err? {
      return Err(sys.error);
    }
    SystemInRange(hl, u1, u2, |mol.atoms|);
    r := MoveMobileHydrogen(mol, sys.value);
  }

  // ---------------------------------------------------------------- fix_unsaturated_bond_to_biradical

  /** One candidate pair (u1, u2) of pending indices: the bond between them
      when there is one (then the mobile hydrogen), otherwise a butadiene path. */
  function Attempt(m: Mol, hl: seq<seq<int>>, pf: PathFinder, u1: int, u2: int): (r: Result<(Mol, bool), Failure>)
    requires 1 <= u1 <= |m.atoms| && 1 <= u2 <= |m.atoms| && LayerInRange(hl, |m.atoms|)
    ensures r.Ok? && !r.value.1 ==> r.value.0 == m
  {
    var a1, a2 := u1 - 1, u2 - 1;
    if HasBond(m, a1, a2) then
      var t := Triplet(m, a1, a2);
      if t.1 then Ok(t) else FixMobileHStep(m, hl, u1, u2)
    else Ok(Butadiene(m, pf, a1, a2))
  }

  lemma AttemptEffect(m: Mol, hl: seq<seq<int>>, pf: PathFinder, u1: int, u2: int)
    requires Sound(pf) && WellFormed(m)
    requires 1 <= u1 <= |m.atoms| && 1 <= u2 <= |m.atoms| && LayerInRange(hl, |m.atoms|)
    ensures var r := Attempt(m, hl, pf, u1, u2);
      && (r.Err? ==> r.error != CannotCorrect)
      && (r.Ok? ==>
            && WellFormed(r.value.0) && |r.value.0.atoms| == |m.atoms| && r.value.0.multiplicity == m.multiplicity
            && RadicalCount(r.value.0) == RadicalCount(m) + (if r.value.1 then 2 else 0)
            && (r.value.1 ==> u1 != u2 && GainsPair(m, r.value.0, u1 - 1, u2 - 1)))
  {
    var a1, a2 := u1 - 1, u2 - 1;
    if !HasBond(m, a1, a2) {
      assert Attempt(m, hl, pf, u1, u2) == Ok(Butadiene(m, pf, a1, a2));
      ButadieneEffect(m, pf, a1, a2);
    } else if Order(m, a1, a2) != SINGLE {
      assert Attempt(m, hl, pf, u1, u2) == Ok(Triplet(m, a1, a2));
      TripletEffect(m, a1, a2);
    } else {
      assert Attempt(m, hl, pf, u1, u2) == FixMobileHStep(m, hl, u1, u2);
      FixMobileHEffect(m, hl, u1, u2);
    }
  }

  /** The body of the combinations loop for one pair, on the molecule object. */
  method TryPair(mol: Molecule, hl: seq<seq<int>>, pf: PathFinder, u1: int, u2: int) returns (r: Result<bool, Failure>)
    requires 1 <= u1 <= |mol.atoms| && 1 <= u2 <= |mol.atoms| && LayerInRange(hl, |mol.atoms|)
    modifies mol
    ensures Agrees(mol.State(), r, Attempt(old(mol.State()), hl, pf, u1, u2))
  {
    var a1, a2 := u1 - 1, u2 - 1;
    if HasBond(mol.State(), a1, a2) {
      var fixed := ConvertUnsaturatedBondToTriplet(mol, a1, a2);
      if fixed {
        return Ok(true);
      }
      r := FixMobileH(mol, hl, u1, u2);
    } else {
      var found := FixButadienePath(mol, pf, a1, a2);
      return Ok(found);
    }
  }

  /** The pairs of itertools.combinations(u, 2) from (u[p], u[q]) on; the
      first pair that converts leaves the pending list, one occurrence each. */
  function PairsFrom(m: Mol, u: seq<int>, hl: seq<seq<int>>, pf: PathFinder, p: nat, q: nat): (r: Result<(Mol, seq<int>), Failure>)
    requires Sound(pf) && WellFormed(m) && OneBased(u, |m.atoms|) && LayerInRange(hl, |m.atoms|) && p < q
    ensures r.Err? ==> r.error != CannotCorrect
    ensures r.Ok? ==>
      && WellFormed(r.value.0) && |r.value.0.atoms| == |m.atoms| && r.value.0.multiplicity == m.multiplicity
      && RadicalCount(r.value.0) == RadicalCount(m) + 2
      && |r.value.1| == |u| - 2 && OneBased(r.value.1, |m.atoms|)
      && forall v :: Count(r.value.1, v) <= Count(u, v)
    decreases |u| - p, |u| - q
  {
    if p + 1 >= |u| then Err(NoBiradicalConversion)
    else if q >= |u| then PairsFrom(m, u, hl, pf, p + 1, p + 2)
    else
      AttemptEffect(m, hl, pf, u[p], u[q]);
      match Attempt(m, hl, pf, u[p], u[q])
      case Err(f) => Err(f)
      case Ok(t) =>
        if t.1 then
          PairRemoved(u, p, q, |m.atoms|);
          Ok((t.0, RemoveFirst(RemoveFirst(u, u[p]), u[q])))
        else PairsFrom(m, u, hl, pf, p, q + 1)
  }

  /** The entries that leave the pending list are one occurrence each of a
      pair of distinct indices u[i], u[j] at or after row p, and the atoms
      they name are the two that gained the unpaired electrons. */
  lemma {:induction false} PairsFromPair(m: Mol, u: seq<int>, hl: seq<seq<int>>, pf: PathFinder, p: nat, q: nat)
    requires Sound(pf) && WellFormed(m) && OneBased(u, |m.atoms|) && LayerInRange(hl, |m.atoms|) && p < q
    ensures var r := PairsFrom(m, u, hl, pf, p, q);
      r.Ok? ==> exists i, j | p <= i < j < |u| ::
        && u[i] != u[j] && u[j] in RemoveFirst(u, u[i])
        && r.value.1 == RemoveFirst(RemoveFirst(u, u[i]), u[j])
        && GainsPair(m, r.value.0, u[i] - 1, u[j] - 1)
    decreases |u| - p, |u| - q
  {
    if p + 1 >= |u| {
    } else if q >= |u| {
      PairsFromPair(m, u, hl, pf, p + 1, p + 2);
    } else {
      AttemptEffect(m, hl, pf, u[p], u[q]);
      var a := Attempt(m, hl, pf, u[p], u[q]);
      if a.Ok? {
        if a.value.1 {
          PairRemoved(u, p, q, |m.atoms|);
          assert PairsFrom(m, u, hl, pf, p, q) == Ok((a.value.0, RemoveFirst(RemoveFirst(u, u[p]), u[q])));
        } else {
          PairsFromPair(m, u, hl, pf, p, q + 1);
        }
      }
    }
  }

  /** Removing the pair takes one occurrence each of u[p] and u[q] and no
      other entry, and keeps the list in range. */
  lemma PairRemoved(u: seq<int>, p: nat, q: nat, n: nat)
    requires p < q < |u| && OneBased(u, n)
    ensures u[q] in RemoveFirst(u, u[p])
    ensures var u' := RemoveFirst(RemoveFirst(u, u[p]), u[q]);
      && |u'| == |u| - 2 && OneBased(u', n)
      && (forall v :: Count(u', v) == Count(u, v) - (if v == u[p] then 1 else 0) - (if v == u[q] then 1 else 0))
      && forall v :: Count(u', v) <= Count(u, v)
  {
    SecondOccurrence(u, p, q);
    var u1 := RemoveFirst(u, u[p]);
    RemoveFirstCount(u, u[p]);
    RemoveFirstCount(u1, u[q]);
    OneBasedRemoveFirst(u, u[p], n);
    OneBasedRemoveFirst(u1, u[q], n);
    forall v ensures Count(RemoveFirst(u1, u[q]), v) == Count(u, v) - (if v == u[p] then 1 else 0) - (if v == u[q] then 1 else 0) {
      CountRemoveFirst(u, u[p], v);
      CountRemoveFirst(u1, u[q], v);
    }
  }

  /** fix_unsaturated_bond_to_biradical(mol, inchi, u_indices). */
  function ToBiradical(m: Mol, u: seq<int>, hl: seq<seq<int>>, pf: PathFinder): Result<(Mol, seq<int>), Failure>
    requires Sound(pf) && WellFormed(m) && OneBased(u, |m.atoms|) && LayerInRange(hl, |m.atoms|)
  {
    PairsFrom(m, u, hl, pf, 0, 1)
  }

  /** fix_unsaturated_bond_to_biradical on the molecule object. */
  method FixUnsaturatedBondToBiradical(mol: Molecule, u: seq<int>, hl: seq<seq<int>>, pf: PathFinder)
    returns (r: Result<seq<int>, Failure>)
    requires Sound(pf) && WellFormed(mol.State()) && OneBased(u, |mol.atoms|) && LayerInRange(hl, |mol.atoms|)
    modifies mol
    ensures Agrees(mol.State(), r, ToBiradical(old(mol.State()), u, hl, pf))
  {
    ghost var m0 := mol.State();
    var p := 0;
    while p + 1 < |u|
      invariant mol.State() == m0
      invariant PairsFrom(m0, u, hl, pf, p, p + 1) == PairsFrom(m0, u, hl, pf, 0, 1)
    {
      var q := p + 1;
      while q < |u|
        invariant p < q <= |u| && mol.State() == m0
        invariant PairsFrom(m0, u, hl, pf, p, q) == PairsFrom(m0, u, hl, pf, 0, 1)
      {
        var res := TryPair(mol, hl, pf, u[p], u[q]);
        if res.Err? {
          return Err(res.error);
        }
        var fixed := res.value;
        if fixed {
          PairRemoved(u, p, q, |m0.atoms|);
          var u' := RemoveFirst(u, u[p]);
          u' := RemoveFirst(u', u[q]);
          return Ok(u');
        }
        q := q + 1;
      }
      p := p + 1;
    }
    return Err(NoBiradicalConversion);
  }

  // ---------------------------------------------------------------- fix_unsaturated_bond

  /** The while loop: convert pairs until the radical count matches the
      multiplicity, no bond is unsaturated, or fewer than two indices remain. */
  function UnsaturatedLoop(m: Mol, u: seq<int>, hl: seq<seq<int>>, pf: PathFinder): (r: Result<(Mol, seq<int>), Failure>)
    requires Sound(pf) && WellFormed(m) && OneBased(u, |m.atoms|) && LayerInRange(hl, |m.atoms|)
    ensures r.Err? ==> r.error != CannotCorrect
    ensures r.Ok? ==>
      && WellFormed(r.value.0) && |r.value.0.atoms| == |m.atoms| && r.value.0.multiplicity == m.multiplicity
      && RadicalCount(r.value.0) + |r.value.1| == RadicalCount(m) + |u|
      && OneBased(r.value.1, |m.atoms|)
      && (forall v :: Count(r.value.1, v) <= Count(u, v))
      && (RadicalCount(r.value.0) == r.value.0.multiplicity - 1 || !IsUnsaturated(r.value.0) || |r.value.1| <= 1)
    decreases |u|
  {
    if RadicalCount(m) == m.multiplicity - 1 || !IsUnsaturated(m) || |u| <= 1 then Ok((m, u))
    else
      match ToBiradical(m, u, hl, pf)
      case Err(f) => Err(f)
      case Ok(t) =>
        var r := UnsaturatedLoop(t.0, t.1, hl, pf);
        assert r.Ok? ==> forall v :: Count(r.value.1, v) <= Count(t.1, v) <= Count(u, v);
        r
  }

  /** fix_unsaturated_bond(mol, indices, aug_inchi). */
  function FixUnsaturated(m: Mol, u: seq<int>, hl: seq<seq<int>>, pf: PathFinder): Result<(Mol, seq<int>), Failure>
    requires Sound(pf) && WellFormed(m) && OneBased(u, |m.atoms|) && LayerInRange(hl, |m.atoms|)
  {
    if RadicalCount(m) != m.multiplicity - 1 && u == [] then Err(CannotCorrect)
    else UnsaturatedLoop(m, u, hl, pf)
  }

  /** The pass raises CannotCorrect exactly when the radical count is wrong and
      no index is pending; on success the radical count plus the pending count
      is kept and the loop's exit condition holds. */
  lemma FixUnsaturatedEffect(m: Mol, u: seq<int>, hl: seq<seq<int>>, pf: PathFinder)
    requires Sound(pf) && WellFormed(m) && OneBased(u, |m.atoms|) && LayerInRange(hl, |m.atoms|)
    ensures var r := FixUnsaturated(m, u, hl, pf);
      && (r == Err(CannotCorrect) <==> RadicalCount(m) != m.multiplicity - 1 && u == [])
      && (r.Ok? ==>
            && WellFormed(r.value.0) && |r.value.0.atoms| == |m.atoms| && r.value.0.multiplicity == m.multiplicity
            && RadicalCount(r.value.0) + |r.value.1| == RadicalCount(m) + |u|
            && OneBased(r.value.1, |m.atoms|)
            && (forall v :: Count(r.value.1, v) <= Count(u, v))
            && (RadicalCount(r.value.0) == r.value.0.multiplicity - 1 || !IsUnsaturated(r.value.0) || |r.value.1| <= 1))
  {
  }

  /** fix_unsaturated_bond on the molecule object. */
  method FixUnsaturatedBond(mol: Molecule, u: seq<int>, hl: seq<seq<int>>, pf: PathFinder)
    returns (r: Result<seq<int>, Failure>)
    requires Sound(pf) && WellFormed(mol.State()) && OneBased(u, |mol.atoms|) && LayerInRange(hl, |mol.atoms|)
    modifies mol
    ensures Agrees(mol.State(), r, FixUnsaturated(old(mol.State()), u, hl, pf))
  {
    ghost var m0 := mol.State();
    var indices := u;
    var correct := RadicalCount(mol.State()) == mol.multiplicity - 1;
    if !correct && indices == [] {
      return Err(CannotCorrect);
    }
    var unsaturated := IsUnsaturated(mol.State());
    while !correct && unsaturated && |indices| > 1
      invariant WellFormed(mol.State()) && |mol.atoms| == |m0.atoms| && OneBased(indices, |mol.atoms|)
      invariant correct == (RadicalCount(mol.State()) == mol.multiplicity - 1)
      invariant unsaturated == IsUnsaturated(mol.State())
      invariant UnsaturatedLoop(mol.State(), indices, hl, pf) == UnsaturatedLoop(m0, u, hl, pf)
      decreases |indices|
    {
      ghost var mk := mol.State();
      var res := FixUnsaturatedBondToBiradical(mol, indices, hl, pf);
      if res.Err? {
        return Err(res.error);
      }
      indices := res.value;
      correct := RadicalCount(mol.State()) == mol.multiplicity - 1;
      unsaturated := IsUnsaturated(mol.State());
    }
    return Ok(indices);
  }
}
