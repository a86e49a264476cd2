/**
 * The read-only tests of the parser: the final `check`, `isUnsaturated`,
 * the oxygen bond-order test `is_valid` and `isCorrectlyParsed`.
 */
module Checks {
  import opened Wrappers
  import opened MolGraph

  /** The first atom at position k or later whose valence equation fails. */
  function FirstValenceError(m: Mol, k: nat): (r: Option<nat>)
    ensures r.None? <==> forall i | k <= i < |m.atoms| :: ValenceOk(m, i)
    ensures r.Some? ==>
      && k <= r.value < |m.atoms| && !ValenceOk(m, r.value)
      && forall i | k <= i < r.value :: ValenceOk(m, i)
    decreases |m.atoms| - k
  {
    if k >= |m.atoms| then None
    else if !ValenceOk(m, k) then Some(k)
    else FirstValenceError(m, k + 1)
  }

  /** check(mol, aug_inchi): None when both assertions hold, otherwise the
      failure of the first assertion that does not. */
  function Check(m: Mol, mult: int): (r: Option<Failure>)
    ensures r.None? <==> mult == RadicalCount(m) + 1 && forall i | 0 <= i < |m.atoms| :: ValenceOk(m, i)
    ensures r == Some(MultiplicityMismatch) <==> mult != RadicalCount(m) + 1
    ensures r.Some? && r.value.ValenceMismatch? ==>
      && mult == RadicalCount(m) + 1 && r.value.atom < |m.atoms| && !ValenceOk(m, r.value.atom)
      && forall i | 0 <= i < r.value.atom :: ValenceOk(m, i)
  {
    if mult != RadicalCount(m) + 1 then Some(MultiplicityMismatch)
    else
      match FirstValenceError(m, 0)
      case None => None
      case Some(i) => Some(ValenceMismatch(i))
  }

  /** Whether some bond of atom i to an atom at position j or later is not single. */
  function UnsaturatedFrom(m: Mol, i: nat, j: nat): (r: bool)
    ensures r <==> exists l | j <= l < |m.atoms| :: HasBond(m, i, l) && Order(m, i, l) != SINGLE
    decreases |m.atoms| - j
  {
    if j >= |m.atoms| then false
    else (HasBond(m, i, j) && Order(m, i, j) != SINGLE) || UnsaturatedFrom(m, i, j + 1)
  }

  /** The scan of isUnsaturated over atoms at position i or later and their bonds. */
  function UnsaturatedScan(m: Mol, i: nat): (r: bool)
    ensures r <==> exists k, l | i <= k < |m.atoms| && 0 <= l < |m.atoms| ::
      HasBond(m, k, l) && Order(m, k, l) != SINGLE
    decreases |m.atoms| - i
  {
    if i >= |m.atoms| then false
    else UnsaturatedFrom(m, i, 0) || UnsaturatedScan(m, i + 1)
  }

  /** isUnsaturated: the molecule has a bond that is not single. */
  function IsUnsaturated(m: Mol): (r: bool)
    requires WellFormed(m)
    ensures r <==> exists e | e in m.bonds :: m.bonds[e] != SINGLE
  {
    ScanFindsBonds(m);
    UnsaturatedScan(m, 0)
  }

  lemma ScanFindsBonds(m: Mol)
    requires WellFormed(m)
    ensures UnsaturatedScan(m, 0) <==> exists e | e in m.bonds :: m.bonds[e] != SINGLE
  {
    if UnsaturatedScan(m, 0) {
      var k, l :| 0 <= k < |m.atoms| && 0 <= l < |m.atoms| && HasBond(m, k, l) && Order(m, k, l) != SINGLE;
      assert Key(k, l) in m.bonds;
    } else {
      forall e | e in m.bonds ensures m.bonds[e] == SINGLE {
        assert HasBond(m, e.lo, e.hi) && Key(e.lo, e.hi) == e;
      }
    }
  }

  /** The largest bond-order sum an oxygen may have after a trial edit:
      is_valid rejects a sum of 4 or more (8 half-units). */
  const OXYGEN_ORDER_LIMIT: int := 8

  function OxygenOrdersValidFrom(m: Mol, k: nat): (r: bool)
    ensures r <==> forall i | k <= i < |m.atoms| ::
      m.atoms[i].number == OXYGEN ==> OrderSum(m, i) < OXYGEN_ORDER_LIMIT
    decreases |m.atoms| - k
  {
    if k >= |m.atoms| then true
    else if m.atoms[k].number == OXYGEN && OrderSum(m, k) >= OXYGEN_ORDER_LIMIT then false
    else OxygenOrdersValidFrom(m, k + 1)
  }

  /** is_valid: every oxygen atom's bonds sum to an order below 4. */
  function OxygenOrdersValid(m: Mol): (r: bool)
    ensures r <==> forall i | 0 <= i < |m.atoms| ::
      m.atoms[i].number == OXYGEN ==> OrderSum(m, i) < OXYGEN_ORDER_LIMIT
  {
    OxygenOrdersValidFrom(m, 0)
  }

  /** t occurs in s starting at position i. */
  predicate OccursAt(s: string, t: string, i: nat)
  {
    i + |t| <= |s| && s[i..i + |t|] == t
  }

  /** Python's `t in s` for strings, searching from position k on. */
  function ContainsFrom(s: string, t: string, k: nat): (r: bool)
    ensures r <==> exists i: nat | k <= i :: OccursAt(s, t, i)
    decreases |s| - k
  {
    if k + |t| > |s| then false
    else OccursAt(s, t, k) || ContainsFrom(s, t, k + 1)
  }

  /** isCorrectlyParsed: the molecule has atoms and, for an InChI identifier,
      the element counts of the identifier and of the molecule agree.  The two
      element-count maps come from retrieveElementCount, which is not part of
      this model. */
  function IsCorrectlyParsed(m: Mol, identifier: string,
                             inchiElementCount: map<string, nat>,
                             molElementCount: map<string, nat>): (r: bool)
    ensures r <==>
      && |m.atoms| > 0
      && ((exists i: nat :: OccursAt(identifier, "InChI", i)) ==> inchiElementCount == molElementCount)
  {
    var isInChI := ContainsFrom(identifier, "InChI", 0);
    |m.atoms| > 0 && (isInChI ==> inchiElementCount == molElementCount)
  }
}
