/**
 * The molecule graph the fixer edits: atoms with their electronic decoration,
 * bonds keyed by unordered atom pairs, and the multiplicity field.
 *
 * Bond orders are kept in half-units so that the aromatic order 1.5 is an
 * integer: single = 2, aromatic = 3, double = 4, triple = 6.  One call of
 * `incrementOrder` / `decrementOrder` moves an order by UNIT = 2 half-units.
 */
module MolGraph {

  const SINGLE: int := 2
  const AROMATIC: int := 3
  const DOUBLE: int := 4
  const TRIPLE: int := 6
  const UNIT: int := 2

  const HYDROGEN: nat := 1
  const OXYGEN: nat := 8

  /** An atom: atomic number, the valence of its element (VALENCES[symbol]),
      formal charge, unpaired electrons, lone pairs and the scratch label. */
  datatype Atom = Atom(number: nat, valence: int, charge: int, radicals: int, lonePairs: int, scratchLabel: string)

  /** An unordered atom pair, stored with lo < hi. */
  datatype Edge = Edge(lo: nat, hi: nat)

  /** The molecule: atoms by 0-based position (position + 1 is the InChI index). */
  datatype Mol = Mol(atoms: seq<Atom>, bonds: map<Edge, int>, multiplicity: int)

  /** Why a repair gives up; each stands for an exception the source raises. */
  datatype Failure =
    | IndexNotPending(index: int)
    | MobileHSystemNotFound
    | MobileHPartnerMissing
    | NoMobileHydrogen
    | NoBondToPartner
    | HydrogenIsPartner
    | NoBiradicalConversion
    | CannotCorrect
    | MultiplicityMismatch
    | ValenceMismatch(atom: nat)

  function Key(i: nat, j: nat): Edge
  {
    if i <= j then Edge(i, j) else Edge(j, i)
  }

  /** Every bond joins two distinct atoms of the molecule. */
  predicate WellFormed(m: Mol)
  {
    forall e | e in m.bonds :: e.lo < e.hi < |m.atoms|
  }

  /** Order of the bond between i and j, 0 when there is none. */
  function Order(m: Mol, i: nat, j: nat): int
  {
    if Key(i, j) in m.bonds then m.bonds[Key(i, j)] else 0
  }

  predicate HasBond(m: Mol, i: nat, j: nat)
  {
    i != j && Key(i, j) in m.bonds
  }

  /** Sum of the orders of i's bonds to atoms 0 .. k-1. */
  function OrderSumTo(m: Mol, i: nat, k: nat): int
  {
    if k == 0 then 0 else OrderSumTo(m, i, k - 1) + Order(m, i, k - 1)
  }

  /** Sum of the orders of all bonds of atom i (the `order` of the valence equation, in half-units). */
  function OrderSum(m: Mol, i: nat): int
  {
    OrderSumTo(m, i, |m.atoms|)
  }

  function TotalOrderTo(m: Mol, k: nat): int
  {
    if k == 0 then 0 else TotalOrderTo(m, k - 1) + OrderSumTo(m, k - 1, k - 1)
  }

  /** Sum of all bond orders, each bond counted once (through its higher endpoint). */
  function TotalOrder(m: Mol): int
  {
    TotalOrderTo(m, |m.atoms|)
  }

  function RadicalSum(s: seq<Atom>): int
  {
    if s == [] then 0 else RadicalSum(s[..|s| - 1]) + s[|s| - 1].radicals
  }

  /** getRadicalCount / getNumberOfRadicalElectrons. */
  function RadicalCount(m: Mol): int
  {
    RadicalSum(m.atoms)
  }

  function Abs(x: int): nat
  {
    if x < 0 then -x else x
  }

  function AbsChargeSum(s: seq<Atom>): int
  {
    if s == [] then 0 else AbsChargeSum(s[..|s| - 1]) + Abs(s[|s| - 1].charge)
  }

  /** Twice the defect of the valence equation
      order + radicals + 2 * lonePairs + charge == valence, in half-units. */
  function Balance(m: Mol, i: nat): int
    requires i < |m.atoms|
  {
    var a := m.atoms[i];
    OrderSum(m, i) + 2 * (a.radicals + 2 * a.lonePairs + a.charge - a.valence)
  }

  predicate ValenceOk(m: Mol, i: nat)
    requires i < |m.atoms|
  {
    Balance(m, i) == 0
  }

  /** The source's `c += 1 if c < 0 else -1`. */
  function TowardZero(c: int): (r: int)
    ensures c != 0 ==> Abs(r) == Abs(c) - 1 && (r == 0 || (r < 0 <==> c < 0))
    ensures c == 0 ==> r == -1
  {
    c + (if c < 0 then 1 else -1)
  }

  // ---------------------------------------------------------------- edits

  function WithAtom(m: Mol, i: nat, a: Atom): Mol
    requires i < |m.atoms|
  {
    m.(atoms := m.atoms[i := a])
  }

  /** Adds d half-units to the bond between i and j. */
  function WithOrderChange(m: Mol, i: nat, j: nat, d: int): Mol
  {
    m.(bonds := m.bonds[Key(i, j) := Order(m, i, j) + d])
  }

  function WithBond(m: Mol, i: nat, j: nat, order: int): Mol
  {
    m.(bonds := m.bonds[Key(i, j) := order])
  }

  function WithoutBond(m: Mol, i: nat, j: nat): Mol
  {
    m.(bonds := m.bonds - {Key(i, j)})
  }

  function AddRadical(m: Mol, i: nat, d: int): Mol
    requires i < |m.atoms|
  {
    WithAtom(m, i, m.atoms[i].(radicals := m.atoms[i].radicals + d))
  }

  // ---------------------------------------------------------------- sums

  lemma {:induction false} OrderSumToPointwise(m: Mol, m': Mol, i: nat, k: nat, x: nat, d: int)
    requires forall j: nat | j < k && j != x :: Order(m', i, j) == Order(m, i, j)
    requires x < k ==> Order(m', i, x) == Order(m, i, x) + d
    ensures OrderSumTo(m', i, k) == OrderSumTo(m, i, k) + (if x < k then d else 0)
  {
    if k > 0 {
      OrderSumToPointwise(m, m', i, k - 1, x, d);
    }
  }

  lemma OrderSumFrame(m: Mol, m': Mol, i: nat)
    requires |m'.atoms| == |m.atoms|
    requires forall j: nat | j < |m.atoms| :: Order(m', i, j) == Order(m, i, j)
    ensures OrderSum(m', i) == OrderSum(m, i)
  {
    OrderSumToPointwise(m, m', i, |m.atoms|, 0, 0);
  }

  lemma {:induction false} TotalOrderFrame(m: Mol, m': Mol, k: nat)
    requires forall i: nat, j: nat | j < i < k :: Order(m', i, j) == Order(m, i, j)
    ensures TotalOrderTo(m', k) == TotalOrderTo(m, k)
  {
    if k > 0 {
      TotalOrderFrame(m, m', k - 1);
      OrderSumToPointwise(m, m', k - 1, k - 1, 0, 0);
    }
  }

  lemma {:induction false} RadicalSumUpdate(s: seq<Atom>, i: nat, a: Atom)
    requires i < |s|
    ensures RadicalSum(s[i := a]) == RadicalSum(s) - s[i].radicals + a.radicals
  {
    var t := s[i := a];
    if i == |s| - 1 {
      assert t[..|t| - 1] == s[..|s| - 1];
    } else {
      assert t[..|t| - 1] == s[..|s| - 1][i := a];
      RadicalSumUpdate(s[..|s| - 1], i, a);
    }
  }

  lemma {:induction false} AbsChargeSumUpdate(s: seq<Atom>, i: nat, a: Atom)
    requires i < |s|
    ensures AbsChargeSum(s[i := a]) == AbsChargeSum(s) - Abs(s[i].charge) + Abs(a.charge)
  {
    var t := s[i := a];
    if i == |s| - 1 {
      assert t[..|t| - 1] == s[..|s| - 1];
    } else {
      assert t[..|t| - 1] == s[..|s| - 1][i := a];
      AbsChargeSumUpdate(s[..|s| - 1], i, a);
    }
  }

  /** Atom sequences with the same radicals have the same radical sum. */
  lemma {:induction false} RadicalSumSame(s: seq<Atom>, t: seq<Atom>)
    requires |s| == |t| && forall i | 0 <= i < |s| :: s[i].radicals == t[i].radicals
    ensures RadicalSum(s) == RadicalSum(t)
  {
    if s != [] {
      RadicalSumSame(s[..|s| - 1], t[..|t| - 1]);
    }
  }

  /** Atom sequences with the same charges have the same charge magnitude. */
  lemma {:induction false} AbsChargeSumSame(s: seq<Atom>, t: seq<Atom>)
    requires |s| == |t| && forall i | 0 <= i < |s| :: s[i].charge == t[i].charge
    ensures AbsChargeSum(s) == AbsChargeSum(t)
  {
    if s != [] {
      AbsChargeSumSame(s[..|s| - 1], t[..|t| - 1]);
    }
  }

  /** Changing one atom changes the radical count and the charge magnitude
      by that atom's differences. */
  lemma WithAtomCounts(m: Mol, i: nat, a: Atom)
    requires i < |m.atoms|
    ensures RadicalCount(WithAtom(m, i, a)) == RadicalCount(m) - m.atoms[i].radicals + a.radicals
    ensures AbsChargeSum(WithAtom(m, i, a).atoms) == AbsChargeSum(m.atoms) - Abs(m.atoms[i].charge) + Abs(a.charge)
  {
    RadicalSumUpdate(m.atoms, i, a);
    AbsChargeSumUpdate(m.atoms, i, a);
  }

  /** Changing one atom changes the radical count by that atom's difference
      and leaves every bond-order sum as it was. */
  lemma WithAtomEffect(m: Mol, i: nat, a: Atom)
    requires i < |m.atoms|
    ensures RadicalCount(WithAtom(m, i, a)) == RadicalCount(m) - m.atoms[i].radicals + a.radicals
    ensures AbsChargeSum(WithAtom(m, i, a).atoms) == AbsChargeSum(m.atoms) - Abs(m.atoms[i].charge) + Abs(a.charge)
    ensures forall k: nat :: OrderSum(WithAtom(m, i, a), k) == OrderSum(m, k)
    ensures TotalOrder(WithAtom(m, i, a)) == TotalOrder(m)
    ensures WellFormed(m) ==> WellFormed(WithAtom(m, i, a))
  {
    WithAtomCounts(m, i, a);
    var m' := WithAtom(m, i, a);
    forall k: nat ensures OrderSum(m', k) == OrderSum(m, k) {
      OrderSumFrame(m, m', k);
    }
    TotalOrderFrame(m, m', |m.atoms|);
  }

  /** Edits that leave the bonds alone leave every bond-order sum alone. */
  lemma SameBondsEffect(m: Mol, m': Mol)
    requires |m'.atoms| == |m.atoms| && m'.bonds == m.bonds
    ensures forall k: nat :: OrderSum(m', k) == OrderSum(m, k)
    ensures TotalOrder(m') == TotalOrder(m)
    ensures WellFormed(m) ==> WellFormed(m')
  {
    forall k: nat ensures OrderSum(m', k) == OrderSum(m, k) {
      OrderSumFrame(m, m', k);
    }
    TotalOrderFrame(m, m', |m.atoms|);
  }

  /** Changing the bond between a and b by d changes the bond-order sums of a
      and b by d, no other atom's, and the total bond order by d. */
  lemma OrderChangeEffect(m: Mol, a: nat, b: nat, d: int)
    requires WellFormed(m) && a < |m.atoms| && b < |m.atoms| && a != b
    ensures var m' := WithOrderChange(m, a, b, d);
      && WellFormed(m')
      && Order(m', a, b) == Order(m, a, b) + d
      && (forall i: nat :: OrderSum(m', i) == OrderSum(m, i) + (if i == a || i == b then d else 0))
      && TotalOrder(m') == TotalOrder(m) + d
  {
    var m' := WithOrderChange(m, a, b, d);
    forall i: nat ensures OrderSum(m', i) == OrderSum(m, i) + (if i == a || i == b then d else 0) {
      if i == a {
        OrderSumToPointwise(m, m', i, |m.atoms|, b, d);
      } else if i == b {
        OrderSumToPointwise(m, m', i, |m.atoms|, a, d);
      } else {
        OrderSumToPointwise(m, m', i, |m.atoms|, 0, 0);
      }
    }
    TotalOrderChange(m, m', a, b, d, |m.atoms|);
  }

  lemma {:induction false} TotalOrderChange(m: Mol, m': Mol, a: nat, b: nat, d: int, k: nat)
    requires a != b
    requires forall i: nat, j: nat :: Order(m', i, j) == Order(m, i, j) + (if Key(i, j) == Key(a, b) then d else 0)
    ensures TotalOrderTo(m', k) == TotalOrderTo(m, k) + (if a < k && b < k then d else 0)
  {
    if k > 0 {
      TotalOrderChange(m, m', a, b, d, k - 1);
      var i := k - 1;
      if i == a {
        OrderSumToPointwise(m, m', i, i, b, d);
      } else if i == b {
        OrderSumToPointwise(m, m', i, i, a, d);
      } else {
        OrderSumToPointwise(m, m', i, i, 0, 0);
      }
    }
  }

  // ---------------------------------------------------------------- the mutable molecule

  /** The Molecule object the passes edit in place. */
  class Molecule {
    var atoms: seq<Atom>
    var bonds: map<Edge, int>
    var multiplicity: int

    constructor (m: Mol)
      ensures State() == m
    {
      atoms, bonds, multiplicity := m.atoms, m.bonds, m.multiplicity;
    }

    function State(): Mol
      reads this
    {
      Mol(atoms, bonds, multiplicity)
    }

    method SetAtom(i: nat, a: Atom)
      requires i < |atoms|
      modifies this
      ensures State() == WithAtom(old(State()), i, a)
    {
      atoms := atoms[i := a];
    }

    /** Adds d half-units to the order of the bond between i and j. */
    method ChangeOrder(i: nat, j: nat, d: int)
      modifies this
      ensures State() == WithOrderChange(old(State()), i, j, d)
    {
      bonds := bonds[Key(i, j) := Order(State(), i, j) + d];
    }

    /** Bond.incrementOrder */
    method IncrementOrder(i: nat, j: nat)
      modifies this
      ensures State() == WithOrderChange(old(State()), i, j, UNIT)
    {
      ChangeOrder(i, j, UNIT);
    }

    /** Bond.decrementOrder */
    method DecrementOrder(i: nat, j: nat)
      modifies this
      ensures State() == WithOrderChange(old(State()), i, j, -UNIT)
    {
      ChangeOrder(i, j, -UNIT);
    }

    method AddBond(i: nat, j: nat, order: int)
      modifies this
      ensures State() == WithBond(old(State()), i, j, order)
    {
      bonds := bonds[Key(i, j) := order];
    }

    method RemoveBond(i: nat, j: nat)
      modifies this
      ensures State() == WithoutBond(old(State()), i, j)
    {
      bonds := bonds - {Key(i, j)};
    }

    method SetMultiplicity(mult: int)
      modifies this
      ensures State() == old(State()).(multiplicity := mult)
    {
      multiplicity := mult;
    }
  }
}
