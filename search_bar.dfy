/** The search box (`components/SearchBar.tsx`): the text being typed, and
    the rule that decides when a query is committed to the page. Calling
    `onSearch(q)` is modelled by returning `Some(q)`; not calling it by
    `None`. */
module SearchBar {
  import opened Text

  datatype Option<T> = None | Some(value: T)

  class SearchBarState {
    var input: string

    constructor ()
      ensures input == ""
    {
      input := "";
    }

    /** `onChange`: the box holds what was typed. */
    method OnChange(value: string)
      modifies this
      ensures input == value
    {
      input := value;
    }

    /** `handleSearch` (the Search button): commits the trimmed input, and
        only when something other than whitespace was typed. What it commits
        is non-empty and already trimmed. */
    function HandleSearch(): (emitted: Option<string>)
      reads this
      ensures emitted.Some? <==> !AllSpace(input)
      ensures emitted.Some? ==> emitted.value == Trim(input)
      ensures emitted.Some? ==> emitted.value != "" && IsTrimmed(emitted.value)
    {
      var trimmed := Trim(input);
      if trimmed != "" then Some(trimmed) else None
    }

    /** `handleKeyDown`: Enter does what the Search button does; any other
        key commits nothing. */
    function HandleKeyDown(key: string): (emitted: Option<string>)
      reads this
      ensures key == "Enter" ==> emitted == HandleSearch()
      ensures key != "Enter" ==> emitted == None
    {
      if key == "Enter" then HandleSearch() else None
    }

    /** `handleClear`: empties the box and commits the empty query. */
    method HandleClear() returns (emitted: Option<string>)
      modifies this
      ensures input == "" && emitted == Some("")
    {
      input := "";
      emitted := Some("");
    }
  }
}
