/** The table's checkbox (`components/SatelliteTable.tsx`): toggling a row in
    or out of the selection, keyed by `noradCatId`, with a hard cap. */
module SatelliteTable {
  import opened Seqs
  import opened Satellites

  /** The most rows the selection may hold. */
  const MaxSelected: nat := 10

  /** What `toggleSelection` does: overwrite the selection with a new list,
      or refuse (the `alert` branch) and leave it alone. */
  datatype ToggleOutcome = Updated(selection: seq<Satellite>) | CapacityExceeded

  /** `toggleSelection(row)` over the current `selected` list: a row whose
      identifier is selected is deselected (every entry with that identifier
      goes), a new row is appended while there is room, and otherwise the
      change is refused. */
  function ToggleSelection(selected: seq<Satellite>, row: Satellite): (r: ToggleOutcome)
    ensures HasId(selected, row.noradCatId) ==> r == Updated(WithoutId(selected, row.noradCatId))
    ensures !HasId(selected, row.noradCatId) && |selected| < MaxSelected ==> r == Updated(selected + [row])
    ensures r.CapacityExceeded? <==> !HasId(selected, row.noradCatId) && |selected| >= MaxSelected
  {
    if HasId(selected, row.noradCatId) then Updated(WithoutId(selected, row.noradCatId))
    else if |selected| < MaxSelected then Updated(selected + [row])
    else CapacityExceeded
  }

  /** The selection once the toggle has been handled. */
  function SelectionAfter(selected: seq<Satellite>, row: Satellite): (r: seq<Satellite>) {
    match ToggleSelection(selected, row)
    case Updated(s) => s
    case CapacityExceeded => selected
  }

  /** A toggle never takes a selection of at most ten rows above ten. */
  lemma ToggleKeepsBound(selected: seq<Satellite>, row: Satellite)
    requires |selected| <= MaxSelected
    ensures |SelectionAfter(selected, row)| <= MaxSelected
  {
  }

  /** A toggle keeps identifiers unique. */
  lemma ToggleKeepsUniqueIds(selected: seq<Satellite>, row: Satellite)
    requires UniqueIds(selected)
    ensures UniqueIds(SelectionAfter(selected, row))
  {
    var id := row.noradCatId;
    if HasId(selected, id) {
      SubsequenceKeepsDistinct(IdOf, WithoutId(selected, id), selected);
    } else if |selected| < MaxSelected {
      var ids := Map(IdOf, selected + [row]);
      assert ids == Map(IdOf, selected) + [id];
      forall i, j | 0 <= i < j < |ids| ensures ids[i] != ids[j] {
        if j == |selected| {
          assert selected[i] in selected;
        }
      }
    }
  }

  /** Toggling a row that is not selected, while there is room, and then
      toggling it again gives back the original selection. */
  lemma ToggleTwiceRestores(selected: seq<Satellite>, row: Satellite)
    requires !HasId(selected, row.noradCatId) && |selected| < MaxSelected
    ensures SelectionAfter(SelectionAfter(selected, row), row) == selected
  {
    var id := row.noradCatId;
    var p := (s: Satellite) => s.noradCatId != id;
    var added := selected + [row];
    assert HasId(added, id) by { assert row in added; }
    assert SelectionAfter(selected, row) == added;
    assert SelectionAfter(added, row) == Filter(p, added);
    FilterAppend(p, selected, [row]);
    assert forall s :: s in selected ==> p(s);
    FilterAll(p, selected);
    assert Filter(p, [row]) == [];
  }

  /** At capacity, a new row is refused and the selection is exactly what it
      was, in the same order. */
  lemma ToggleAtCapacity(selected: seq<Satellite>, row: Satellite)
    requires |selected| == MaxSelected && !HasId(selected, row.noradCatId)
    ensures ToggleSelection(selected, row) == CapacityExceeded
    ensures SelectionAfter(selected, row) == selected
  {
  }
}
