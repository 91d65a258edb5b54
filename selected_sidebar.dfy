/** The selection side panel (`components/SelectedSidebar.tsx`): removal by
    identifier, clearing, and the proceed button's enabled state. */
module SelectedSidebar {
  import opened Seqs
  import opened Satellites
  import opened SatelliteTable

  /** `handleRemove` on an identifier that is not selected changes nothing. */
  lemma RemoveAbsentIsNoop(selected: seq<Satellite>, id: string)
    requires !HasId(selected, id)
    ensures WithoutId(selected, id) == selected
  {
    FilterAll((s: Satellite) => s.noradCatId != id, selected);
  }

  /** `handleRemove` never grows the selection and keeps both the cap and
      the uniqueness of identifiers. */
  lemma RemoveKeepsInvariant(selected: seq<Satellite>, id: string)
    requires |selected| <= MaxSelected && UniqueIds(selected)
    ensures |WithoutId(selected, id)| <= |selected|
    ensures |WithoutId(selected, id)| <= MaxSelected
    ensures UniqueIds(WithoutId(selected, id))
  {
    SubsequenceKeepsDistinct(IdOf, WithoutId(selected, id), selected);
  }

  /** `disabled={selected.length === 0}`: proceeding is disabled exactly when
      nothing is selected. */
  function ProceedDisabled(selected: seq<Satellite>): (disabled: bool)
    ensures disabled <==> selected == []
  {
    |selected| == 0
  }
}
