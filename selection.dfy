/** The page's `selected` state (`pages/Home.tsx`), which the table's toggle
    and the side panel's remove and clear overwrite through `setSelected`. */
module Selection {
  import opened Seqs
  import opened Satellites
  import opened SatelliteTable
  import opened SelectedSidebar

  class SelectedSatellites {
    var selected: seq<Satellite>

    /** At most ten rows, no identifier twice. */
    ghost predicate Valid()
      reads this
    {
      |selected| <= MaxSelected && UniqueIds(selected)
    }

    /** The selection starts empty. */
    constructor ()
      ensures Valid() && selected == []
    {
      selected := [];
    }

    /** The table's `toggleSelection(row)`; `alerted` is the refusal that the
        page reports with an alert, and the selection is then unchanged. */
    method ToggleSelection(row: Satellite) returns (alerted: bool)
      requires Valid()
      modifies this
      ensures Valid()
      ensures alerted <==> !HasId(old(selected), row.noradCatId) && |old(selected)| >= MaxSelected
      ensures alerted ==> selected == old(selected)
      ensures selected == SelectionAfter(old(selected), row)
    {
      ToggleKeepsBound(selected, row);
      ToggleKeepsUniqueIds(selected, row);
      var outcome := SatelliteTable.ToggleSelection(selected, row);
      match outcome
      case Updated(s) =>
        selected := s;
        alerted := false;
      case CapacityExceeded =>
        alerted := true;
    }

    /** The side panel's `handleRemove(id)`. */
    method HandleRemove(id: string)
      requires Valid()
      modifies this
      ensures Valid()
      ensures selected == WithoutId(old(selected), id)
    {
      RemoveKeepsInvariant(selected, id);
      selected := WithoutId(selected, id);
    }

    /** The side panel's `handleClear`: the empty selection, whatever was
        there before. */
    method HandleClear()
      modifies this
      ensures Valid() && selected == []
    {
      selected := [];
    }

    /** Whether the proceed button is disabled. */
    function ProceedDisabled(): (disabled: bool)
      reads this
      ensures disabled <==> selected == []
    {
      SelectedSidebar.ProceedDisabled(selected)
    }
  }
}
