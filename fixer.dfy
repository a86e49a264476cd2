/**
 * fix: the driver that repairs a molecule parsed from an InChI so that its
 * unpaired electrons match the multiplicity and the u-layer of the
 * augmented InChI, and then checks the result.
 */
module Fixer {
  import opened Wrappers
  import opened MolGraph
  import opened PendingIndices
  import opened PathFinder
  import opened Checks
  import opened ChargeRepair
  import opened LonePairs
  import opened Delocalization
  import opened OxygenRepair
  import opened Biradical

  // ---------------------------------------------------------------- fix_triplet_to_singlet

  /** An atom carrying two unpaired electrons pairs them into one lone pair. */
  function Singlet(a: Atom): Atom
  {
    if a.radicals == 2 then a.(lonePairs := 1, radicals := 0) else a
  }

  /** The multiplicity becomes the requested one; a singlet whose atoms carry
      two unpaired electrons in total has its doubly radical atoms paired. */
  function TripletToSinglet(m: Mol, mult: int): Mol
  {
    if mult == 1 && RadicalCount(m) == 2
    then Mol(seq(|m.atoms|, i requires 0 <= i < |m.atoms| => Singlet(m.atoms[i])), m.bonds, mult)
    else m.(multiplicity := mult)
  }

  /** The multiplicity is always the requested one.  In the singlet case every
      atom with two unpaired electrons ends with none and one lone pair, which
      moves its valence defect by four half-units per lone pair it had; every
      other atom, and every bond, is untouched. */
  lemma TripletToSingletEffect(m: Mol, mult: int)
    ensures var m' := TripletToSinglet(m, mult);
      && m'.multiplicity == mult && m'.bonds == m.bonds && |m'.atoms| == |m.atoms|
      && (WellFormed(m) ==> WellFormed(m'))
      && (!(mult == 1 && RadicalCount(m) == 2) ==> m'.atoms == m.atoms)
      && (forall i | 0 <= i < |m.atoms| && m.atoms[i].radicals != 2 :: m'.atoms[i] == m.atoms[i])
      && (forall i | 0 <= i < |m.atoms| && m.atoms[i].radicals == 2 && mult == 1 && RadicalCount(m) == 2 ::
            && m'.atoms[i].radicals == 0 && m'.atoms[i].lonePairs == 1
            && m'.atoms[i].(radicals := 2, lonePairs := m.atoms[i].lonePairs) == m.atoms[i]
            && Balance(m', i) == Balance(m, i) - 4 * m.atoms[i].lonePairs)
  {
    SameBondsEffect(m, TripletToSinglet(m, mult));
  }

  lemma {:induction false} RadicalSumNonneg(s: seq<Atom>)
    requires forall k | 0 <= k < |s| :: s[k].radicals >= 0
    ensures RadicalSum(s) >= 0
  {
    if s != [] {
      RadicalSumNonneg(s[..|s| - 1]);
    }
  }

  lemma {:induction false} RadicalSumAtLeast(s: seq<Atom>, i: nat)
    requires i < |s| && forall k | 0 <= k < |s| :: s[k].radicals >= 0
    ensures RadicalSum(s) >= s[i].radicals
  {
    if i == |s| - 1 {
      RadicalSumNonneg(s[..|s| - 1]);
    } else {
      RadicalSumAtLeast(s[..|s| - 1], i);
    }
  }

  lemma {:induction false} RadicalSumAtLeastTwo(s: seq<Atom>, i: nat, j: nat)
    requires i < j < |s| && forall k | 0 <= k < |s| :: s[k].radicals >= 0
    ensures RadicalSum(s) >= s[i].radicals + s[j].radicals
  {
    if j == |s| - 1 {
      RadicalSumAtLeast(s[..|s| - 1], i);
    } else {
      RadicalSumAtLeastTwo(s[..|s| - 1], i, j);
    }
  }

  lemma {:induction false} RadicalSumZero(s: seq<Atom>)
    requires forall k | 0 <= k < |s| :: s[k].radicals == 0
    ensures RadicalSum(s) == 0
  {
    if s != [] {
      RadicalSumZero(s[..|s| - 1]);
    }
  }

  /** When one atom holds both unpaired electrons of a would-be singlet, the
      pairing leaves no unpaired electron at all, so the radical count then
      agrees with multiplicity 1. */
  lemma TripletToSingletPairs(m: Mol, c: nat)
    requires c < |m.atoms| && m.atoms[c].radicals == 2 && RadicalCount(m) == 2
    requires forall k | 0 <= k < |m.atoms| :: m.atoms[k].radicals >= 0
    ensures forall k | 0 <= k < |m.atoms| :: TripletToSinglet(m, 1).atoms[k].radicals == 0
    ensures RadicalCount(TripletToSinglet(m, 1)) + 1 == TripletToSinglet(m, 1).multiplicity
  {
    var m' := TripletToSinglet(m, 1);
    forall k | 0 <= k < |m.atoms| && k != c ensures m.atoms[k].radicals == 0 {
      if k < c {
        RadicalSumAtLeastTwo(m.atoms, k, c);
      } else {
        RadicalSumAtLeastTwo(m.atoms, c, k);
      }
    }
    RadicalSumZero(m'.atoms);
  }

  /** fix_triplet_to_singlet on the molecule object. */
  method FixTripletToSinglet(mol: Molecule, mult: int)
    modifies mol
    ensures mol.State() == TripletToSinglet(old(mol.State()), mult)
  {
    ghost var m0 := mol.State();
    mol.SetMultiplicity(mult);
    if mult == 1 && RadicalCount(mol.State()) == 2 {
      var k := 0;
      while k < |mol.atoms|
        invariant 0 <= k <= |mol.atoms| == |m0.atoms|
        invariant mol.bonds == m0.bonds && mol.multiplicity == mult
        invariant forall i | 0 <= i < k :: mol.atoms[i] == Singlet(m0.atoms[i])
        invariant forall i | k <= i < |mol.atoms| :: mol.atoms[i] == m0.atoms[i]
      {
        if mol.atoms[k].radicals == 2 {
          mol.SetAtom(k, mol.atoms[k].(lonePairs := 1, radicals := 0));
        }
        k := k + 1;
      }
      assert mol.atoms == TripletToSinglet(m0, mult).atoms;
    }
  }

  // ---------------------------------------------------------------- ignoring atoms that already carry radicals

  /** `v` is pending but its atom already has more unpaired electrons than
      the list holds copies of v, so one of the removals finds none left. */
  predicate Short(m: Mol, u: seq<int>, v: int)
  {
    1 <= v <= |m.atoms| && v in u && Count(u, v) < m.atoms[v - 1].radicals
  }

  /** How many copies of each index the pass deletes: the radical count of
      the atom for every pending index, nothing for the others. */
  function Need(m: Mol, u: seq<int>): (need: seq<nat>)
  {
    seq(|m.atoms| + 1, v requires 0 <= v <= |m.atoms| =>
      if 1 <= v && v in u && m.atoms[v - 1].radicals > 0 then m.atoms[v - 1].radicals else 0)
  }

  /** `u.remove(v)` repeated k times; the first removal that finds no v raises. */
  function RemoveTimes(u: seq<int>, v: int, k: int): Result<seq<int>, Failure>
    decreases if k > 0 then k else 0
  {
    if k <= 0 then Ok(u)
    else if v !in u then Err(IndexNotPending(v))
    else RemoveTimes(RemoveFirst(u, v), v, k - 1)
  }

  /** The distinct pending indices from v on, in ascending order: each loses
      as many copies as its atom has unpaired electrons. */
  function DropFrom(m: Mol, u0: seq<int>, cur: seq<int>, v: nat): Result<seq<int>, Failure>
    requires 1 <= v
    decreases |m.atoms| + 1 - v
  {
    if v > |m.atoms| then Ok(cur)
    else if v in u0 then
      match RemoveTimes(cur, v, m.atoms[v - 1].radicals)
      case Err(f) => Err(f)
      case Ok(c) => DropFrom(m, u0, c, v + 1)
    else DropFrom(m, u0, cur, v + 1)
  }

  /** The loop of fix that ignores atoms already bearing unpaired electrons. */
  function SkipRadicalIndices(m: Mol, u: seq<int>): Result<seq<int>, Failure>
  {
    DropFrom(m, u, u, 1)
  }

  /** Removing k more copies of v from a Skip result is the Skip that deletes
      k more, or fails when u does not hold that many. */
  lemma {:induction false} RemoveTimesSkip(u: seq<int>, need: seq<nat>, v: int, k: int)
    requires InRange(u, |need|) && 0 <= v < |need|
    ensures RemoveTimes(Skip(u, need), v, k) ==
      if k <= 0 then Ok(Skip(u, need))
      else if Count(u, v) >= need[v] + k then Ok(Skip(u, need[v := need[v] + k]))
      else Err(IndexNotPending(v))
    decreases if k > 0 then k else 0
  {
    if k > 0 {
      SkipRemoveFirst(u, need, v);
      if Count(u, v) > need[v] {
        var need' := need[v := need[v] + 1];
        RemoveTimesSkip(u, need', v, k - 1);
        assert need'[v := need'[v] + k - 1] == need[v := need[v] + k];
      }
    }
  }

  /** One index of the set loop: it fails on a short index and otherwise
      deletes that index's share of copies. */
  lemma DropFromStep(m: Mol, u0: seq<int>, acc: seq<nat>, v: nat)
    requires OneBased(u0, |m.atoms|) && 1 <= v <= |m.atoms|
    requires |acc| == |m.atoms| + 1 && acc[v] == 0
    ensures DropFrom(m, u0, Skip(u0, acc), v) ==
      if Short(m, u0, v) then Err(IndexNotPending(v))
      else DropFrom(m, u0, Skip(u0, acc[v := Need(m, u0)[v]]), v + 1)
  {
    var rad := m.atoms[v - 1].radicals;
    if v in u0 {
      RemoveTimesSkip(u0, acc, v, rad);
      if rad <= 0 {
        assert acc[v := Need(m, u0)[v]] == acc;
      }
    } else {
      assert acc[v := Need(m, u0)[v]] == acc;
    }
  }

  lemma {:induction false} DropFromSpec(m: Mol, u0: seq<int>, acc: seq<nat>, v: nat)
    requires OneBased(u0, |m.atoms|) && 1 <= v <= |m.atoms| + 1
    requires |acc| == |m.atoms| + 1
    requires forall w | 0 <= w <= |m.atoms| :: acc[w] == if w < v then Need(m, u0)[w] else 0
    ensures var r := DropFrom(m, u0, Skip(u0, acc), v);
      && (r.Err? <==> exists w | v <= w <= |m.atoms| :: Short(m, u0, w))
      && (r.Err? ==> && r.error.IndexNotPending? && Short(m, u0, r.error.index)
                     && forall w | v <= w < r.error.index :: !Short(m, u0, w))
      && (r.Ok? ==> r.value == Skip(u0, Need(m, u0)))
    decreases |m.atoms| + 1 - v
  {
    if v > |m.atoms| {
      assert acc == Need(m, u0);
    } else {
      DropFromStep(m, u0, acc, v);
      if !Short(m, u0, v) {
        DropFromSpec(m, u0, acc[v := Need(m, u0)[v]], v + 1);
      }
    }
  }

  /** The pass fails exactly when some pending atom already has more unpaired
      electrons than the list holds copies of its index, and names the
      smallest such index; otherwise every pending index loses exactly as
      many copies as its atom has unpaired electrons and nothing else goes. */
  lemma SkipRadicalIndicesSpec(m: Mol, u: seq<int>)
    requires OneBased(u, |m.atoms|)
    ensures var r := SkipRadicalIndices(m, u);
      && (r.Err? <==> exists v | 1 <= v <= |m.atoms| :: Short(m, u, v))
      && (r.Err? ==> && r.error.IndexNotPending? && Short(m, u, r.error.index)
                     && forall w | 1 <= w < r.error.index :: !Short(m, u, w))
      && (r.Ok? ==> && OneBased(r.value, |m.atoms|)
                    && |r.value| <= |u|
                    && forall v | 1 <= v <= |m.atoms| :: Count(r.value, v) == Count(u, v) - Need(m, u)[v])
  {
    var zeros: seq<nat> := seq(|m.atoms| + 1, _ => 0);
    SkipNothing(u, zeros);
    DropFromSpec(m, u, zeros, 1);
    var r := SkipRadicalIndices(m, u);
    if r.Ok? {
      var need := Need(m, u);
      forall v | 1 <= v <= |m.atoms| ensures Count(r.value, v) == Count(u, v) - need[v] {
        assert !Short(m, u, v);
        SkipNeedCount(m, u, v);
      }
      forall v ensures Count(r.value, v) <= Count(u, v) {
        SkipSub(u, need, v);
      }
      CountedOneBased(u, r.value, |m.atoms|);
      SkipLength(u, need);
    }
  }

  /** An index that is not short loses exactly the copies its atom needs. */
  lemma SkipNeedCount(m: Mol, u: seq<int>, v: int)
    requires OneBased(u, |m.atoms|) && 1 <= v <= |m.atoms| && !Short(m, u, v)
    ensures Count(Skip(u, Need(m, u)), v) == Count(u, v) - Need(m, u)[v]
  {
    SkipCount(u, Need(m, u), v);
    if v !in u {
      CountPositive(u, v);
    }
  }

  lemma {:induction false} SkipLength(u: seq<int>, need: seq<nat>)
    requires InRange(u, |need|)
    ensures |Skip(u, need)| <= |u|
  {
    if u != [] {
      if need[u[0]] > 0 {
        SkipLength(u[1..], need[u[0] := need[u[0]] - 1]);
      } else {
        SkipLength(u[1..], need);
      }
    }
  }

  lemma RemoveTimesUnfold(u: seq<int>, v: int, k: int)
    requires k > 0
    ensures v !in u ==> RemoveTimes(u, v, k) == Err(IndexNotPending(v))
    ensures v in u ==> RemoveTimes(u, v, k) == RemoveTimes(RemoveFirst(u, v), v, k - 1)
  {
  }

  /** The list comprehension of fix that calls `u.remove(v)` k times. */
  method RemoveCopies(u: seq<int>, v: int, k: int) returns (r: Result<seq<int>, Failure>)
    ensures r == RemoveTimes(u, v, k)
  {
    var cur := u;
    var left := k;
    while left > 0
      invariant RemoveTimes(cur, v, left) == RemoveTimes(u, v, k)
      decreases left
    {
      if v !in cur {
        return Err(IndexNotPending(v));
      }
      var next := RemoveFirst(cur, v);
      RemoveTimesUnfold(cur, v, left);
      cur, left := next, left - 1;
    }
    return Ok(cur);
  }

  /** The set loop of fix, over the distinct pending indices in ascending
      order. */
  method DropRadicalIndices(mol: Molecule, u: seq<int>) returns (r: Result<seq<int>, Failure>)
    ensures r == SkipRadicalIndices(mol.State(), u)
  {
    ghost var m := mol.State();
    var cur := u;
    var v := 1;
    while v <= |mol.atoms|
      invariant 1 <= v <= |m.atoms| + 1
      invariant DropFrom(m, u, cur, v) == SkipRadicalIndices(m, u)
      decreases |m.atoms| + 1 - v
    {
      if v in u {
        var removed := RemoveCopies(cur, v, mol.atoms[v - 1].radicals);
        if removed.Err? {
          return removed;
        }
        cur := removed.value;
      }
      v := v + 1;
    }
    return Ok(cur);
  }

  // ---------------------------------------------------------------- fixCharge

  /** fixCharge: only a charged molecule of multiplicity at least 3 whose
      radical count is wrong and that has pending indices is touched; it then
      turns charges into unpaired electrons, on the pending atoms and along
      delocalisation paths, and neutralises adjacent charges.  Every pending
      index consumed takes one unit of charge away, the total charge magnitude
      does not grow, and the radical count plus the pending count is kept. */
  function ChargeFix(m: Mol, u: seq<int>, pf: PathFinder): (r: (Mol, seq<int>))
    requires Sound(pf) && WellFormed(m) && OneBased(u, |m.atoms|)
    ensures WellFormed(r.0) && |r.0.atoms| == |m.atoms| && r.0.multiplicity == m.multiplicity
    ensures RadicalCount(r.0) + |r.1| == RadicalCount(m) + |u|
    ensures AbsChargeSum(r.0.atoms) + |u| - |r.1| <= AbsChargeSum(m.atoms)
    ensures OneBased(r.1, |m.atoms|) && forall v :: Count(r.1, v) <= Count(u, v)
    ensures (u == [] || m.multiplicity < 3 || RadicalCount(m) == m.multiplicity - 1 || AbsChargeSum(m.atoms) == 0)
      ==> r == (m, u)
  {
    if u == [] || m.multiplicity < 3 || RadicalCount(m) == m.multiplicity - 1 || AbsChargeSum(m.atoms) == 0 then (m, u)
    else
      ChargeToRadicalEffect(m, u);
      var c := ChargeToRadical(m, u);
      SameBondsEffect(m, c.0);
      CountedOneBased(u, c.1, |m.atoms|);
      DelocEffect(c.0, c.1, pf);
      var d := Deloc(c.0, c.1, pf);
      AdjacentChargesAsWrittenSound(d.0);
      CountedOneBased(u, d.1, |m.atoms|);
      (AdjacentChargesAsWritten(d.0), d.1)
  }

  /** fixCharge on the molecule object. */
  method FixCharge(mol: Molecule, u: seq<int>, pf: PathFinder) returns (u': seq<int>)
    requires Sound(pf) && WellFormed(mol.State()) && OneBased(u, |mol.atoms|)
    modifies mol
    ensures (mol.State(), u') == ChargeFix(old(mol.State()), u, pf)
  {
    if u == [] {
      return u;
    }
    var charged := AbsChargeSum(mol.atoms) != 0;
    var correct := RadicalCount(mol.State()) == mol.multiplicity - 1;
    if mol.multiplicity < 3 || correct || !charged {
      return u;
    }
    ghost var m0 := mol.State();
    ChargeToRadicalEffect(m0, u);
    var u1 := ConvertChargeToUnpairedElectron(mol, u);
    SameBondsEffect(m0, mol.State());
    CountedOneBased(u, u1, |mol.atoms|);
    u' := ConvertDelocalizedChargeToUnpairedElectron(mol, u1, pf);
    FixAdjacentCharges(mol);
  }

  // ---------------------------------------------------------------- fix

  /** The passes of fix after the pending list is set up: fixCharge,
      reset_lone_pairs_to_default, fix_oxygen_unsaturated_bond and
      fix_unsaturated_bond.  On success the radical count plus the pending
      count is what it was, and the unsaturated-bond loop's exit condition
      holds. */
  function Pipeline(m: Mol, u: seq<int>, hl: seq<seq<int>>, pf: PathFinder): (r: Result<(Mol, seq<int>), Failure>)
    requires Sound(pf) && WellFormed(m) && OneBased(u, |m.atoms|) && LayerInRange(hl, |m.atoms|)
    ensures r.Ok? ==>
      && WellFormed(r.value.0) && |r.value.0.atoms| == |m.atoms| && r.value.0.multiplicity == m.multiplicity
      && RadicalCount(r.value.0) + |r.value.1| == RadicalCount(m) + |u|
      && (forall v :: Count(r.value.1, v) <= Count(u, v))
      && (RadicalCount(r.value.0) == m.multiplicity - 1 || !IsUnsaturated(r.value.0) || |r.value.1| <= 1)
  {
    var c := ChargeFix(m, u, pf);
    var l := Reset(c.0);
    ResetFrame(c.0);
    SameBondsEffect(c.0, l);
    OxygenFixConserves(l, c.1, pf);
    var o := OxygenFix(l, c.1, pf);
    CountedOneBased(c.1, o.1, |m.atoms|);
    FixUnsaturatedEffect(o.0, o.1, hl, pf);
    FixUnsaturated(o.0, o.1, hl, pf)
  }

  /** fix(mol, aug_inchi): mult is the augmented InChI's multiplicity (-1 when
      it states none), u its u-layer (None when absent) and hl its
      mobile-hydrogen layer. */
  function Repair(m: Mol, mult: int, u: Option<seq<int>>, hl: seq<seq<int>>, pf: PathFinder): Result<Mol, Failure>
    requires Sound(pf) && WellFormed(m) && LayerInRange(hl, |m.atoms|)
    requires u.Some? ==> OneBased(u.value, |m.atoms|)
  {
    if mult == -1 then Ok(m.(multiplicity := RadicalCount(m) + 1))
    else
      TripletToSingletEffect(m, mult);
      var m1 := TripletToSinglet(m, mult);
      var u0 := if u.Some? then u.value else [];
      SkipRadicalIndicesSpec(m1, u0);
      match SkipRadicalIndices(m1, u0)
      case Err(f) => Err(f)
      case Ok(u1) =>
        match Pipeline(m1, u1, hl, pf)
        case Err(f) => Err(f)
        case Ok(p) => if Check(p.0, mult).None? then Ok(p.0) else Err(Check(p.0, mult).value)
  }

  /** Without a stated multiplicity, fix only sets the multiplicity from the
      radical count; atoms and bonds are untouched. */
  lemma RepairUnspecified(m: Mol, u: Option<seq<int>>, hl: seq<seq<int>>, pf: PathFinder)
    requires Sound(pf) && WellFormed(m) && LayerInRange(hl, |m.atoms|)
    requires u.Some? ==> OneBased(u.value, |m.atoms|)
    ensures var r := Repair(m, -1, u, hl, pf);
      && r.Ok? && r.value.atoms == m.atoms && r.value.bonds == m.bonds
      && r.value.multiplicity == RadicalCount(r.value) + 1
  {
  }

  /** Whatever fix returns passes check: the multiplicity is the requested
      one and equals the radical count plus one, and every atom satisfies
      its valence equation. */
  lemma RepairSound(m: Mol, mult: int, u: Option<seq<int>>, hl: seq<seq<int>>, pf: PathFinder)
    requires Sound(pf) && WellFormed(m) && LayerInRange(hl, |m.atoms|)
    requires u.Some? ==> OneBased(u.value, |m.atoms|)
    requires mult != -1
    ensures var r := Repair(m, mult, u, hl, pf);
      r.Ok? ==>
        && WellFormed(r.value) && |r.value.atoms| == |m.atoms|
        && r.value.multiplicity == mult == RadicalCount(r.value) + 1
        && Check(r.value, mult).None?
        && forall i | 0 <= i < |r.value.atoms| :: ValenceOk(r.value, i)
  {
    TripletToSingletEffect(m, mult);
  }

  /** A pending atom that already has more unpaired electrons than copies of
      its index makes fix fail before any repair, naming the smallest such
      index. */
  lemma RepairShort(m: Mol, mult: int, u: Option<seq<int>>, hl: seq<seq<int>>, pf: PathFinder, v: int)
    requires Sound(pf) && WellFormed(m) && LayerInRange(hl, |m.atoms|)
    requires u.Some? ==> OneBased(u.value, |m.atoms|)
    requires mult != -1 && Short(TripletToSinglet(m, mult), if u.Some? then u.value else [], v)
    ensures var r := Repair(m, mult, u, hl, pf);
      && r.Err? && r.error.IndexNotPending?
      && r.error.index <= v
      && Short(TripletToSinglet(m, mult), if u.Some? then u.value else [], r.error.index)
  {
    TripletToSingletEffect(m, mult);
    var u0 := if u.Some? then u.value else [];
    SkipRadicalIndicesSpec(TripletToSinglet(m, mult), u0);
  }

  /** fix on the molecule object: None when the repaired molecule passes
      check, otherwise the failure raised. */
  method Fix(mol: Molecule, mult: int, u: Option<seq<int>>, hl: seq<seq<int>>, pf: PathFinder)
    returns (failure: Option<Failure>)
    requires Sound(pf) && WellFormed(mol.State()) && LayerInRange(hl, |mol.atoms|)
    requires u.Some? ==> OneBased(u.value, |mol.atoms|)
    modifies mol
    ensures var spec := Repair(old(mol.State()), mult, u, hl, pf);
      && (failure.None? <==> spec.Ok?)
      && (spec.Ok? ==> mol.State() == spec.value)
      && (spec.Err? ==> failure == Some(spec.error))
  {
    ghost var m0 := mol.State();
    if mult == -1 {
      mol.SetMultiplicity(RadicalCount(mol.State()) + 1);
      return None;
    }
    TripletToSingletEffect(m0, mult);
    FixTripletToSinglet(mol, mult);
    ghost var m1 := mol.State();
    var indices := if u.Some? then u.value else [];
    SkipRadicalIndicesSpec(m1, indices);
    var dropped := DropRadicalIndices(mol, indices);
    if dropped.Err? {
      return Some(dropped.error);
    }
    var pending := FixCharge(mol, dropped.value, pf);
    ghost var m2 := mol.State();
    ResetLonePairsToDefault(mol);
    ResetFrame(m2);
    SameBondsEffect(m2, mol.State());
    OxygenFixConserves(mol.State(), pending, pf);
    var pending' := FixOxygenUnsaturatedBond(mol, pending, pf);
    CountedOneBased(pending, pending', |mol.atoms|);
    var r := FixUnsaturatedBond(mol, pending', hl, pf);
    assert Pipeline(m1, dropped.value, hl, pf) == FixUnsaturated(OxygenFix(Reset(m2), pending, pf).0, pending', hl, pf);
    if r.Err? {
      return Some(r.error);
    }
    failure := Check(mol.State(), mult);
  }
}
