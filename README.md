# Electronic-structure repair of InChI-parsed molecules

This project models the repair step RMG-Py runs after a backend parses an
InChI: `fix` in `rmgpy/molecule/parser.py`. The backend often gets
unpaired electrons, charges and lone pairs wrong. The augmented InChI states
the multiplicity and, in its u-layer, the 1-based indices of the atoms that
should carry unpaired electrons. The repair chain is:

- `fix` sets the multiplicity, or only derives it from the radical count when
  none is stated.
- `fix_triplet_to_singlet` pairs the electrons of a would-be singlet.
- `fix` drops from the pending u-layer list the atoms that already carry
  unpaired electrons.
- `fixCharge` turns charges into unpaired electrons, directly or along
  delocalisation paths, and neutralises adjacent charges. The model runs
  `fix_adjacent_charges` as written; the corrected pass of the Findings
  table is proved on its own and is not part of `fix`.
- `reset_lone_pairs_to_default` recomputes the lone pairs.
- `fix_oxygen_unsaturated_bond` fixes one radical or cationic oxygen.
- `fix_unsaturated_bond` turns unsaturated bonds into pairs of unpaired
  electrons until the radical count matches the multiplicity.
- `check` checks the result.

The molecule is a value `Mol`: a sequence of atoms (position + 1 is the
InChI index), a map from unordered atom pairs to bond orders, and the
multiplicity. Bond orders are in half-units (single 2, aromatic 3, double 4,
triple 6). One `incrementOrder`/`decrementOrder` is 2 half-units.

The valence equation `order + radicals + 2*lonePairs + charge == valence` is
`Balance(m, i) == 0`, counted in half-electrons so that aromatic orders stay integral.

The Python `Molecule` object is the class `MolGraph.Molecule`, whose methods
edit its fields in place. Each pass of the parser is a method on that class,
proved equal to a specification function of the old state. The properties
the source promises are lemmas about those functions. The pending list
`u_indices`, which the source mutates, is a `seq<int>` that each method
returns in its new form. Exceptions the source raises are `Failure` values in
a `Result`.

Modules:

- `Wrappers`: Option and Result.
- `MolGraph`: atoms, bonds, edits, sums and the `Molecule` class.
- `PendingIndices`: `list.remove` and counting.
- `PathFinder`: the path-search contract and bond inversion.
- `Recipe`: reaction-recipe actions and their reversal.
- `Checks`: `check`, `isUnsaturated`, `is_valid` and `isCorrectlyParsed`.
- `ChargeRepair`: `convert_charge_to_unpaired_electron` and `fix_adjacent_charges`.
- `Delocalization`: the delocalised-charge conversions.
- `LonePairs`: the lone-pair reset.
- `OxygenRepair`: the oxygen repair.
- `Biradical`: the unsaturated-bond loop, the butadiene path and the mobile hydrogen.
- `Fixer`: the triplet-to-singlet repair, the index setup, `fixCharge` and `fix`.

## Model

| member | source | states |
|---|---|---|
| Checks.Check | rmgpy/molecule/parser.py:152-175 | None exactly when the multiplicity equals the radical count plus one and every atom satisfies its valence equation; MultiplicityMismatch exactly when the first assertion fails; otherwise ValenceMismatch names the first atom whose equation fails |
| Checks.FirstValenceError | rmgpy/molecule/parser.py:172-175 | None exactly when every atom from position k on is balanced; otherwise the least unbalanced position |
| Checks.IsUnsaturated | rmgpy/molecule/parser.py:773-787 | true exactly when some bond of the molecule is not single |
| Checks.OxygenOrdersValid | rmgpy/molecule/parser.py:554-564 | true exactly when every oxygen's bond orders sum to less than 4 |
| Checks.IsCorrectlyParsed | rmgpy/molecule/parser.py:115-129 | true exactly when the molecule has atoms and, if "InChI" occurs in the identifier, the two element counts agree |
| LonePairs.ResetFrame | rmgpy/molecule/parser.py:723-728 | only lone pairs change: bonds, multiplicity, radicals, charges, labels, bond-order sums and the radical count are kept |
| LonePairs.ResetBalance | rmgpy/molecule/parser.py:723-728 | after the reset every atom's valence defect lies in (-4, 0] half-units, and the equation holds exactly when the free electrons form whole pairs |
| LonePairs.ResetRepairs | rmgpy/molecule/parser.py:723-728 | if some lone-pair count would satisfy an atom's valence equation, the reset does |
| LonePairs.ResetIdempotent | rmgpy/molecule/parser.py:723-728 | resetting twice is resetting once |
| LonePairs.ResetLonePairsToDefault | rmgpy/molecule/parser.py:723-728 | the loop leaves the molecule equal to Reset of the old one |
| ChargeRepair.ChargeToRadicalEffect | rmgpy/molecule/parser.py:475-487 | exactly the charged atoms whose index is pending lose one unit of charge and gain one unpaired electron; each such index leaves the list once and no other does; radicals plus pending count and charge magnitude plus pending count are conserved |
| ChargeRepair.ChargeToRadicalFromAtoms | rmgpy/molecule/parser.py:482-487 | the loop from atom k on changes exactly the converting atoms and removes one copy of each of their indices |
| ChargeRepair.ChargeToRadicalFromSums | rmgpy/molecule/parser.py:482-487 | every conversion adds one radical, removes one pending index and one unit of charge magnitude |
| ChargeRepair.ConvertChargeToUnpairedElectron | rmgpy/molecule/parser.py:475-487 | the loop on the molecule object yields ChargeToRadical of the old state and list |
| ChargeRepair.NeutralizeStep | rmgpy/molecule/parser.py:470-473 | one neutralisation of two bonded charged atoms moves both charges toward zero without crossing it, raises one bond and trades each unit of charge for half a bond step |
| ChargeRepair.AdjacentChargesSound | rmgpy/molecule/parser.py:460-473 | the corrected pass moves every charge toward zero and never past it, raises bond orders only, keeps radicals, lone pairs and labels, and matches each unit of charge removed with half a step of bond order |
| ChargeRepair.AsWrittenCrossesZero | rmgpy/molecule/parser.py:467-473 | as written, a cation bonded to two anions ends with charge -1, so the pass does not neutralise |
| ChargeRepair.CorrectedStopsAtZero | rmgpy/molecule/parser.py:467-473 | on the same molecule the corrected pass leaves the cation neutral and one anion charged |
| ChargeRepair.DischargeStep | rmgpy/molecule/parser.py:470-473 | one step as written, where only the neighbour is known to be charged: one bond rises one step, only charges change, the radical count is kept, and the charge magnitude falls by two or stays |
| ChargeRepair.AdjacentChargesAsWrittenSound | rmgpy/molecule/parser.py:460-473 | the pass as written raises bond orders only, keeps radicals, lone pairs and labels, and never adds to the total charge magnitude, which falls by no more than the bond order it adds |
| ChargeRepair.FixAdjacentCharges | rmgpy/molecule/parser.py:460-473 | the nested loops on the molecule object, testing the atom's own charge once before its neighbour loop, yield AdjacentChargesAsWritten of the old state |
| PathFinder.FlipSum | rmgpy/molecule/parser.py:525-532 | inverting an alternating path lowers the bond-order sum of its two end atoms by one step and leaves every other atom's sum unchanged |
| PathFinder.FlipTotal | rmgpy/molecule/parser.py:525-532 | inverting an alternating path lowers the total bond order by exactly one step |
| PathFinder.FlipShape | rmgpy/molecule/parser.py:525-532 | inverting a path keeps the atoms, the multiplicity and the set of bonds |
| PathFinder.TouchDifference | rmgpy/molecule/parser.py:526-532 | on a path of distinct atoms, the even bonds and the odd bonds touch each atom equally often except the two ends, which only the even bonds touch |
| PathFinder.InvertPath | rmgpy/molecule/parser.py:526-532 | the two bond loops on the molecule object yield Flip of the old state |
| Recipe.InverseUndoes | rmgpy/molecule/parser.py:576-597 | the reverse of GAIN_RADICAL or CHANGE_BOND undoes it exactly |
| Recipe.ReverseUndoesForward | rmgpy/molecule/parser.py:589-597 | applyReverse after applyForward restores the molecule the recipe started from |
| Recipe.ApplyForward | rmgpy/molecule/parser.py:589 | the action loop yields Forward of the old state |
| Recipe.ApplyReverse | rmgpy/molecule/parser.py:597 | the reversed action loop yields Reverse of the old state |
| Delocalization.Convert4Effect | rmgpy/molecule/parser.py:510-536 | on an alternating path ending on a charged atom: one radical more, one bond step less, one unit of charge less; every atom keeps its valence balance except a negatively charged end, which ends two electrons over its valence |
| Delocalization.Convert4StepEffect | rmgpy/molecule/parser.py:517-536 | found or not, the radical count rises and the charge magnitude falls by one exactly when a path was found |
| Delocalization.Convert4Atom3BondPath | rmgpy/molecule/parser.py:510-536 | the method yields Convert4Step of the old state |
| Delocalization.LabelsEffect | rmgpy/molecule/parser.py:572-573 | labelling touches only the labels of the path atoms, and blanking leaves each of them empty |
| Delocalization.ClearAfterLabel | rmgpy/molecule/parser.py:593-603 | blanking the labels after writing them equals blanking them |
| Delocalization.RecipeBalance | rmgpy/molecule/parser.py:576-589 | applyForward of the allyl recipe keeps every atom's valence balance except the end atom's, which rises by one electron |
| Delocalization.TrialEffect | rmgpy/molecule/parser.py:572-589 | a trial adds one radical and removes one unit of charge while keeping the total bond order; every atom keeps its balance except a negatively charged end, which ends two electrons over |
| Delocalization.AllylOutcome | rmgpy/molecule/parser.py:538-605 | on success every oxygen's bond orders sum to less than 4, with one radical more, one unit of charge less and the same total order; on failure bonds, charges, radicals and lone pairs are as on entry and the path atoms' labels are empty; every label is either kept or blanked |
| Delocalization.TryAllylPath | rmgpy/molecule/parser.py:570-604 | one candidate path: kept exactly when is_valid holds after the trial, and otherwise rolled back with only the labels blanked |
| Delocalization.Convert3Atom2BondPath | rmgpy/molecule/parser.py:538-605 | the loop over candidate paths yields Convert3Step of the old state |
| Delocalization.DelocStep | rmgpy/molecule/parser.py:497-508 | for one pending index: radicals plus pending count and charge magnitude plus pending count are conserved, and the index leaves the list once or not at all |
| Delocalization.DelocEffect | rmgpy/molecule/parser.py:489-508 | radicals plus pending count and charge magnitude plus pending count are conserved, and the pending list only loses entries |
| Delocalization.DelocalizeIndex | rmgpy/molecule/parser.py:498-508 | the loop body yields DelocStep of the old state |
| Delocalization.ConvertDelocalizedChargeToUnpairedElectron | rmgpy/molecule/parser.py:489-508 | the loop over the copied list yields Deloc of the old state and list |
| OxygenRepair.FirstNeighbour | rmgpy/molecule/parser.py:194-195 | the least wanted neighbour position from j on, or None exactly when there is none |
| OxygenRepair.FindNeighbour | rmgpy/molecule/parser.py:194-195 | the bond loop returns the first wanted neighbour |
| OxygenRepair.RadicalTransferEffect | rmgpy/molecule/parser.py:191-200 | moving the oxygen's unpaired electron over its triple bond keeps every atom's balance, the radical count and the charge magnitude, and lowers the total order one step |
| OxygenRepair.ChargeShiftEffect | rmgpy/molecule/parser.py:201-221 | shifting the oxygen's charge along an allyl path removes two units of charge, keeps radicals and total order and every balance except a negatively charged end's, which ends two electrons over |
| OxygenRepair.NeutralFallbackEffect | rmgpy/molecule/parser.py:222-231 | the fallback removes one unit of charge and keeps radicals plus pending count; every balance is kept except the oxygen's, which ends one electron over its valence when the neighbour was not pending |
| OxygenRepair.OxygenFixConserves | rmgpy/molecule/parser.py:177-231 | the pass keeps the shape and radicals plus pending count, does not increase the charge magnitude, and only removes pending entries |
| OxygenRepair.OxygenFixIdle | rmgpy/molecule/parser.py:190-201 | when no oxygen with one lone pair carries an unpaired electron or a +1 charge, the pass changes nothing |
| OxygenRepair.FixOxygenUnsaturatedBond | rmgpy/molecule/parser.py:177-231 | the atom loop yields OxygenFix of the old state and list |
| OxygenRepair.TransferRadical | rmgpy/molecule/parser.py:196-199 | the four edits yield RadicalTransfer of the old state |
| OxygenRepair.ShiftCharge | rmgpy/molecule/parser.py:210-220 | the edits yield ChargeShift of the old state |
| OxygenRepair.NeutralizeOxygen | rmgpy/molecule/parser.py:225-230 | the edits yield NeutralFallback of the old state and list |
| Biradical.TripletEffect | rmgpy/molecule/parser.py:711-721 | succeeds exactly on a bond that is not single; then each end gains one unpaired electron and no other atom does, the bond one step lower, the total order one step lower and every balance kept; otherwise nothing changes |
| Biradical.ConvertUnsaturatedBondToTriplet | rmgpy/molecule/parser.py:711-721 | the method yields Triplet of the old state |
| Biradical.ButadieneEffect | rmgpy/molecule/parser.py:653-674 | a found path has distinct ends; each end gains one unpaired electron and no other atom does, the total order one step lower and every balance kept; otherwise nothing changes |
| Biradical.FixButadienePath | rmgpy/molecule/parser.py:653-674 | the method yields Butadiene of the old state |
| Biradical.CoupleFrom | rmgpy/molecule/parser.py:447-449 | the first couple from k on holding u1 or u2, or None exactly when none does |
| Biradical.MobileHSystem | rmgpy/molecule/parser.py:441-458 | fails with MobileHSystemNotFound exactly when no couple holds u1 or u2, and with MobileHPartnerMissing only when a couple is just that index; on success original and central are u1 and u2 in some order and the partner shares the original's couple |
| Biradical.FindMobileHSystem | rmgpy/molecule/parser.py:441-458 | the nested loops return MobileHSystem |
| Biradical.HydrogenFrom | rmgpy/molecule/parser.py:694-698 | the first hydrogen bonded to the atom, or None exactly when there is none |
| Biradical.MoveHydrogenEffect | rmgpy/molecule/parser.py:692-706 | the hydrogen ends bonded to the partner and not to the original atom; the central and the original atom gain one unpaired electron each and no other atom does |
| Biradical.HydrogenMoveEffect | rmgpy/molecule/parser.py:692-707 | a successful move keeps the molecule well formed and gives the central and the original atom one unpaired electron each |
| Biradical.FixMobileHStep | rmgpy/molecule/parser.py:676-709 | reports no change exactly when the hydrogen layer is empty |
| Biradical.FixMobileHEffect | rmgpy/molecule/parser.py:676-709 | never raises CannotCorrect; on success two radicals more exactly when it reports a fix, and then the atoms u1 and u2 gain one each |
| Biradical.FixMobileH | rmgpy/molecule/parser.py:676-709 | the method agrees with FixMobileHStep: same state and result on success, same failure otherwise |
| Biradical.AttemptEffect | rmgpy/molecule/parser.py:745-760 | one pair: two radicals more exactly when it reports a fix, and then u1 and u2 are distinct and their atoms gain one unpaired electron each; the state is kept otherwise |
| Biradical.TryPair | rmgpy/molecule/parser.py:745-760 | the method agrees with Attempt |
| Biradical.PairsFrom | rmgpy/molecule/parser.py:741-771 | success gives two radicals more and a pending list two shorter that only lost entries and stays in range |
| Biradical.PairsFromPair | rmgpy/molecule/parser.py:741-765 | on success the new pending list is the old one with one occurrence of u[i] and then of u[j] removed, for a pair i < j of distinct indices, and the atoms u[i] and u[j] are the two that gained the unpaired electrons |
| Biradical.PairRemoved | rmgpy/molecule/parser.py:762-764 | removing u1 then u2 takes one occurrence of each and leaves every other count as it was, and keeps the list in range |
| Biradical.FixUnsaturatedBondToBiradical | rmgpy/molecule/parser.py:730-771 | the combinations loop agrees with ToBiradical |
| Biradical.UnsaturatedLoop | rmgpy/molecule/parser.py:809-812 | on success radicals plus pending count is kept, the list only lost entries, and the loop's exit condition holds |
| Biradical.FixUnsaturatedEffect | rmgpy/molecule/parser.py:790-812 | raises CannotCorrect exactly when the radical count is wrong and no index is pending; on success radicals plus pending count is kept and the exit condition holds |
| Biradical.FixUnsaturatedBond | rmgpy/molecule/parser.py:790-812 | the while loop agrees with FixUnsaturated |
| Fixer.TripletToSingletEffect | rmgpy/molecule/parser.py:640-651 | the multiplicity becomes the requested one; in the singlet case every doubly radical atom ends with no radical and one lone pair and nothing else changes |
| Fixer.TripletToSingletPairs | rmgpy/molecule/parser.py:647-651 | when one atom holds both unpaired electrons, pairing leaves none, so the radical count agrees with multiplicity 1 |
| Fixer.FixTripletToSinglet | rmgpy/molecule/parser.py:640-651 | the method yields TripletToSinglet of the old state |
| Fixer.DropFromSpec | rmgpy/molecule/parser.py:626-628 | the loop from index v on fails exactly at the least short index, otherwise it deletes the needed copies |
| Fixer.SkipRadicalIndicesSpec | rmgpy/molecule/parser.py:623-628 | fails exactly when some pending atom has more unpaired electrons than copies of its index, naming the least such index; otherwise each pending index loses as many copies as its atom has unpaired electrons and nothing else is removed |
| Fixer.RemoveCopies | rmgpy/molecule/parser.py:628 | the repeated remove returns RemoveTimes |
| Fixer.DropRadicalIndices | rmgpy/molecule/parser.py:623-628 | the set loop returns SkipRadicalIndices |
| Fixer.ChargeFix | rmgpy/molecule/parser.py:419-439 | untouched unless indices are pending, the multiplicity is at least 3, the radical count is wrong and there is charge; then radicals plus pending count is kept, every consumed index removes a unit of charge, the adjacent-charge pass as written adds no charge, and the list only loses entries |
| Fixer.FixCharge | rmgpy/molecule/parser.py:419-439 | the method yields ChargeFix of the old state and list |
| Fixer.Pipeline | rmgpy/molecule/parser.py:630-636 | on success radicals plus pending count is kept, the list only lost entries and the unsaturated-bond loop's exit condition holds |
| Fixer.RepairUnspecified | rmgpy/molecule/parser.py:614-619 | with no stated multiplicity, atoms and bonds are untouched and the multiplicity is the radical count plus one |
| Fixer.RepairSound | rmgpy/molecule/parser.py:607-638 | whatever fix returns passes check: the multiplicity is the requested one and the radical count plus one, and every atom is balanced |
| Fixer.RepairShort | rmgpy/molecule/parser.py:621-628 | a pending atom with more unpaired electrons than copies of its index makes fix fail with IndexNotPending, naming such an index no greater than it |
| Fixer.Fix | rmgpy/molecule/parser.py:607-638 | the method fails exactly when Repair does, with the same failure, and otherwise leaves the molecule equal to Repair's |

## Left out

- The path searches of `rmgpy.molecule.pathfinder` are not part of this model. They are the parameter `PathFinder`. `Sound` states the shape of every path they return: alternating, distinct atoms, an end charge where the name says so. Which path they pick and in what order is not modelled.
- `ReactionRecipe` (`rmgpy.data.kinetics`) is not part of this model. Only its two actions used here are modelled. They address atoms by position rather than by label, so the labels are written and blanked as in the source but never read.
- `parse_H_layer`, `retrieveElementCount`, the backends (`fromInChI`, OpenBabel, RDKit), `__lookup` and logging are not part of this model. The hydrogen layer and the element counts are parameters.
- The failure of `Bond.incrementOrder`/`decrementOrder` on an order it cannot change is not modelled. Bond orders are unbounded integers in half-units.
- Floating point: `ORDERS` (in `rmgpy/molecule/util.py`, not part of this model) is taken as single 1, aromatic 1.5, double 2, triple 3, so aromatic orders are 3 half-units.
- LonePairs.Reset: with only integral orders, `reset_lone_pairs_to_default` divides by 2 with Python 2 floor division, as the model does. With an aromatic bond the order sum is a float and `/` divides exactly, so an odd number of half-units gives the source a fractional lone-pair count (such as 1.5), where the model rounds down.
- Iteration order: `at.bonds` and `mol.getBonds` are visited in ascending atom position. The `set` of indices in `fix` is visited in ascending order. `SkipRadicalIndicesSpec` shows that the successful result does not depend on that order.
- The u-layer indices are assumed to be atom numbers 1..n (`OneBased` requires). The source's negative or zero indexing of `mol.atoms` wraps around or raises instead.
- Biradical.FixUnsaturatedBond: on failure it states only the failure, not the molecule left behind by the partial edits. The same holds for Biradical.FixMobileH, Biradical.TryPair, Biradical.FixUnsaturatedBondToBiradical and Fixer.Fix. The source raises at that point.
- Biradical.MoveHydrogenEffect: states the radicals and the hydrogen's bonds, not the valence balance after the move.
- Biradical.HydrogenMove: when the first hydrogen found is itself the partner, the source would bond an atom to itself. The model reports `HydrogenIsPartner` instead.
- The docstring of `convert_3_atom_2_bond_path` says the end atom gains a lone pair. The code does not do that, and the model follows the code.
- `fix_oxygen_unsaturated_bond`'s fallback, for a neighbour that is not pending, leaves the oxygen one electron over its valence. `NeutralFallbackEffect` states this outcome rather than calling it a defect.

## Findings

| source | as written | input that shows it | evidently intended | confidence | as-written member | corrected member |
|---|---|---|---|---|---|---|
| rmgpy/molecule/parser.py:467-473 | the atom's own charge is checked once, before its neighbour loop, so later neighbours keep changing it after it reaches zero | three atoms with charges +1, -1, -1 and single bonds 0-1 and 0-2: atom 0 ends at -1 | neutralise adjacent charges, stopping once the atom is neutral, never pushing a charge past zero | high: proved on the model, not executed | ChargeRepair.AsWrittenCrossesZero | ChargeRepair.AdjacentChargesSound |
