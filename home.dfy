/** The page (`pages/Home.tsx`): the applied filter's initial value, how a
    committed query is stored, and the filter that decides which fetched
    records the table shows. The page's state (`query`, `filters`) is only
    ever replaced wholesale, so it is modelled by plain values. */
module Home {
  import opened Seqs
  import opened Text
  import opened Satellites
  import Filters
  import SearchBar

  /** The applied filter before anything is applied: the four object types
      ticked and no orbit code. */
  function InitialFilters(): (filters: FilterConfig)
    ensures filters.objectTypes == Filters.ObjectTypeLabels && filters.orbitCodes == []
  {
    FilterConfig(["PAYLOAD", "ROCKET BODY", "DEBRIS", "UNKNOWN"], [])
  }

  /** `handleSearch(q)`: the page stores `q.trim()`. */
  function HandleSearch(q: string): (query: string)
    ensures IsTrimmed(query)
    ensures query == "" <==> AllSpace(q)
    ensures IsTrimmed(q) ==> query == q
  {
    Trim(q)
  }

  // ------------------------------------------------------------ text match

  /** The name test: case-insensitive substring. */
  predicate NameIncludes(name: string, query: string) {
    Includes(ToLower(name), ToLower(query))
  }

  /** `nameMatch`: the lower-cased name contains the lower-cased query, or
      the NORAD identifier contains the query as it is. */
  predicate TextMatch(item: Satellite, query: string) {
    NameIncludes(item.name, query) || Includes(item.noradCatId, query)
  }

  /** An empty query restricts nothing. */
  lemma EmptyQueryMatchesAll(item: Satellite)
    ensures TextMatch(item, "")
  {
    IncludesEmpty(item.noradCatId);
  }

  /** The name test does not see letter case, neither in the name nor in the
      query. */
  lemma NameMatchIgnoresCase(name: string, query: string)
    ensures NameIncludes(ToUpper(name), query) == NameIncludes(name, query)
    ensures NameIncludes(name, ToUpper(query)) == NameIncludes(name, query)
    ensures NameIncludes(ToLower(name), ToLower(query)) == NameIncludes(name, query)
  {
    LowerForgetsCase(name);
    LowerForgetsCase(query);
  }

  /** The identifier test does see letter case: the identifier `ab` is found
      by the query `ab` but not by `AB` (for a record whose name is empty). */
  lemma IdMatchIsCaseSensitive(item: Satellite)
    requires item.name == "" && item.noradCatId == "ab"
    ensures TextMatch(item, "ab")
    ensures !TextMatch(item, "AB")
  {
    assert OccursAt(item.noradCatId, "ab", 0);
    assert ToLower("AB") == "ab";
    assert !NameIncludes("", "AB");
    assert !Includes(item.noradCatId, "AB") by {
      forall i | 0 <= i <= |item.noradCatId| - 2 ensures !OccursAt(item.noradCatId, "AB", i) {
        assert item.noradCatId[i] != 'A';
      }
    }
  }

  // ------------------------------------------------------------ type match

  /** `typeMatch`: no type restriction, or the record's type (read as
      `'UNKNOWN'` when empty) is one of the allowed ones. */
  predicate TypeMatch(item: Satellite, filters: FilterConfig) {
    |filters.objectTypes| == 0 || TypeKey(item) in filters.objectTypes
  }

  /** A record without an object type is treated as an `UNKNOWN` one. */
  lemma EmptyTypeIsUnknown(item: Satellite, filters: FilterConfig)
    requires item.objectType == ""
    ensures TypeMatch(item, filters) == TypeMatch(item.(objectType := "UNKNOWN"), filters)
    ensures TypeMatch(item, filters) <==> |filters.objectTypes| == 0 || "UNKNOWN" in filters.objectTypes
  {
  }

  // ----------------------------------------------------------- orbit match

  /** `code.trim().toUpperCase()`: trimmed, without lower-case letters, and
      made only of the piece's characters and upper-case letters. */
  function CleanToken(piece: string): (t: string)
    ensures IsTrimmed(t) && NoLowerCase(t)
    ensures forall i :: 0 <= i < |t| ==> t[i] in piece || 'A' <= t[i] <= 'Z'
  {
    var tr := Trim(piece);
    UpperFixesUpper(tr);
    UpperKeepsTrimmed(tr);
    ToUpper(tr)
  }

  /** The page's own orbit tokeniser: braces removed, split on commas, each
      piece trimmed and upper-cased; empty pieces are KEPT and there is no
      special case for `UNKNOWN` beyond the empty-code default. */
  function OrbitTokens(item: Satellite): (r: seq<string>)
    ensures |r| >= 1
    ensures forall k :: 0 <= k < |r| ==> IsTrimmed(r[k]) && NoLowerCase(r[k])
    ensures forall k :: 0 <= k < |r| ==> '{' !in r[k] && '}' !in r[k] && ',' !in r[k]
  {
    var stripped := StripBraces(OrbitKey(item));
    var pieces := Split(stripped, ',');
    var r := Map(CleanToken, pieces);
    assert forall k :: 0 <= k < |r| ==> '{' !in r[k] && '}' !in r[k] && ',' !in r[k] by {
      forall k | 0 <= k < |r| ensures '{' !in r[k] && '}' !in r[k] && ',' !in r[k] {
        forall i | 0 <= i < |r[k]| ensures r[k][i] != '{' && r[k][i] != '}' && r[k][i] != ',' {
          if r[k][i] in pieces[k] {
            assert r[k][i] in stripped;
          }
        }
      }
    }
    r
  }

  /** A code that is one well-formed token gives that token upper-cased. */
  lemma SingleTokenUpper(item: Satellite)
    requires Filters.IsOrbitToken(OrbitKey(item))
    ensures OrbitTokens(item) == [ToUpper(OrbitKey(item))]
  {
    var key := OrbitKey(item);
    StripBracesNone(key);
    SplitNone(key, ',');
    assert CleanToken(key) == ToUpper(key);
    MapCons(CleanToken, key, []);
    assert [key] + [] == [key];
  }

  /** A code that is one clean upper-case token is its own single token. */
  lemma SingleTokenCode(item: Satellite)
    requires Filters.IsOrbitToken(OrbitKey(item)) && NoLowerCase(OrbitKey(item))
    ensures OrbitTokens(item) == [OrbitKey(item)]
  {
    SingleTokenUpper(item);
    UpperFixesUpper(OrbitKey(item));
  }

  /** A record without an orbit code has the single token `UNKNOWN`. */
  lemma NoOrbitCodeIsUnknown(item: Satellite)
    requires item.orbitCode == ""
    ensures OrbitTokens(item) == ["UNKNOWN"]
  {
    SingleTokenCode(item);
  }

  /** A brace-only code has the single empty token, where the panel's
      normaliser has none. */
  lemma BracesOnlyIsEmptyToken(item: Satellite)
    requires item.orbitCode == "{}"
    ensures OrbitTokens(item) == [""]
    ensures Filters.OrbitsOf(item) == []
  {
    StripBracesAround("");
    assert "{" + "" + "}" == item.orbitCode;
    Filters.NormalizeBracesOnly(item.orbitCode);
  }

  /** `orbitMatch`: no orbit restriction, or some token is an allowed code. */
  predicate OrbitMatch(item: Satellite, filters: FilterConfig) {
    |filters.orbitCodes| == 0 || exists c :: c in OrbitTokens(item) && c in filters.orbitCodes
  }

  /** The page's tokens are the trimmed pieces, upper-cased. */
  lemma TokensAreUpperTrimmedPieces(item: Satellite)
    ensures OrbitTokens(item) == Map(ToUpper, Map(Trim, Split(StripBraces(OrbitKey(item)), ',')))
  {
  }

  /** The two tokenisers agree up to case and empty pieces: dropping the empty
      tokens of the page's list gives the panel's normalised list upper-cased. */
  lemma TokenisersAgree(item: Satellite)
    ensures Filter((t: string) => t != "", OrbitTokens(item)) == Map(ToUpper, Filters.OrbitsOf(item))
  {
    if OrbitKey(item) == "UNKNOWN" {
      TokenisersAgreeOnUnknown(item);
    } else {
      TokenisersAgreeOnPieces(item);
    }
  }

  /** The `UNKNOWN` default is a clean code. This fact about one literal is
      its own lemma so that the solver unfolds the literal in a small
      context; inside the tokeniser lemmas it is too costly. */
  lemma UnknownIsClean(key: string)
    requires key == "UNKNOWN"
    ensures key != "" && Filters.IsOrbitToken(key) && NoLowerCase(key)
  {
  }

  lemma TokenisersAgreeOnUnknown(item: Satellite)
    requires OrbitKey(item) == "UNKNOWN"
    ensures Filter((t: string) => t != "", OrbitTokens(item)) == Map(ToUpper, Filters.OrbitsOf(item))
  {
    var key := OrbitKey(item);
    UnknownIsClean(key);
    TokenisersAgreeOnCleanCode(item);
  }

  lemma TokenisersAgreeOnCleanCode(item: Satellite)
    requires Filters.OrbitsOf(item) == [OrbitKey(item)]
    requires OrbitKey(item) != "" && Filters.IsOrbitToken(OrbitKey(item)) && NoLowerCase(OrbitKey(item))
    ensures Filter((t: string) => t != "", OrbitTokens(item)) == Map(ToUpper, Filters.OrbitsOf(item))
  {
    var key := OrbitKey(item);
    SingleTokenCode(item);
    FilterAll((t: string) => t != "", [key]);
    UpperFixesUpper(key);
    assert Map(ToUpper, [key]) == [key];
  }

  lemma TokenisersAgreeOnPieces(item: Satellite)
    requires OrbitKey(item) != "UNKNOWN"
    ensures Filter((t: string) => t != "", OrbitTokens(item)) == Map(ToUpper, Filters.OrbitsOf(item))
  {
    var nonEmpty := (t: string) => t != "";
    var trimmed := Map(Trim, Split(StripBraces(OrbitKey(item)), ','));
    assert Filters.OrbitsOf(item) == Filter(nonEmpty, trimmed);
    TokensAreUpperTrimmedPieces(item);
    assert forall x :: nonEmpty(ToUpper(x)) == nonEmpty(x) by {
      forall x: string ensures nonEmpty(ToUpper(x)) == nonEmpty(x) {
        assert |ToUpper(x)| == |x|;
      }
    }
    FilterMap(nonEmpty, nonEmpty, ToUpper, trimmed);
  }

  /** For data without lower-case letters in the orbit codes, and a list of
      non-empty codes, the applied orbit test is the draft's orbit test:
      applying the draft shows what the panel previewed. */
  lemma AppliedOrbitMatchIsDraftMatch(item: Satellite, filters: FilterConfig)
    requires NoLowerCase(item.orbitCode)
    requires forall c :: c in filters.orbitCodes ==> c != ""
    ensures OrbitMatch(item, filters) <==> |filters.orbitCodes| == 0 || Filters.AnyIn(Filters.OrbitsOf(item), filters.orbitCodes)
  {
    var orbits := Filters.OrbitsOf(item);
    var tokens := OrbitTokens(item);
    TokenisersAgree(item);
    OrbitsAreUpperCase(item);
    assert Filter((t: string) => t != "", tokens) == orbits;
    assert forall c :: c in tokens && c != "" <==> c in orbits;
  }

  /** Without lower-case letters in the code, upper-casing the panel's
      normalised codes changes nothing. */
  lemma OrbitsAreUpperCase(item: Satellite)
    requires NoLowerCase(item.orbitCode)
    ensures Map(ToUpper, Filters.OrbitsOf(item)) == Filters.OrbitsOf(item)
  {
    var orbits := Filters.OrbitsOf(item);
    forall i | 0 <= i < |orbits| ensures ToUpper(orbits[i]) == orbits[i] {
      assert orbits[i] in orbits;
      OrbitsHaveNoLowerCase(item, orbits[i]);
      UpperFixesUpper(orbits[i]);
    }
  }

  /** The panel's normalised codes keep the characters of the code, so no
      lower-case letter appears in them when none is in the code. */
  lemma OrbitsHaveNoLowerCase(item: Satellite, t: string)
    requires NoLowerCase(item.orbitCode)
    requires t in Filters.OrbitsOf(item)
    ensures NoLowerCase(t)
  {
    var key := OrbitKey(item);
    if key != "UNKNOWN" {
      assert key == item.orbitCode;
      Filters.NormalizedCharsFromCode(key, t);
      NoLowerCaseSubset(key, t);
    }
  }

  // ------------------------------------------------------- the whole filter

  /** One record passes when the text, type and orbit tests all pass. */
  predicate Matches(item: Satellite, filters: FilterConfig, query: string) {
    TextMatch(item, query) && TypeMatch(item, filters) && OrbitMatch(item, filters)
  }

  /** The page's `filteredData`: the fetched records that pass, in their
      original order. */
  function FilteredData(data: seq<Satellite>, filters: FilterConfig, query: string): (r: seq<Satellite>)
    ensures IsSubsequence(r, data)
    ensures forall item :: item in r <==> item in data && Matches(item, filters, query)
    ensures forall item :: multiset(r)[item] == if Matches(item, filters, query) then multiset(data)[item] else 0
  {
    Filter(item => Matches(item, filters, query), data)
  }

  /** No type, no orbit and no text restriction: every record is shown. */
  lemma FilteredDataUnrestricted(data: seq<Satellite>)
    ensures FilteredData(data, FilterConfig([], []), "") == data
  {
    forall item | item in data ensures Matches(item, FilterConfig([], []), "") {
      EmptyQueryMatchesAll(item);
    }
    FilterAll(item => Matches(item, FilterConfig([], []), ""), data);
  }

  /** Under the initial filter a record is shown exactly when its type is one
      of the four known ones and the text test passes. */
  lemma InitialFiltersAdmitKnownTypes(item: Satellite, query: string)
    ensures Matches(item, InitialFilters(), query) <==> TypeKey(item) in Filters.ObjectTypeLabels && TextMatch(item, query)
  {
  }

  /** A query committed by the search box is stored as it is: trimming it
      again changes nothing. */
  lemma CommittedQueryIsStoredAsIs(bar: SearchBar.SearchBarState)
    requires bar.HandleSearch().Some?
    ensures HandleSearch(bar.HandleSearch().value) == bar.HandleSearch().value
  {
  }

  /** Scenario: a payload on `{LEO,MEO}` passes the filter allowing payloads
      on MEO with an empty query, and fails the one allowing only debris. */
  lemma ScenarioPayloadOnMeo(item: Satellite)
    requires item.orbitCode == "{LEO,MEO}" && item.objectType == "PAYLOAD"
    ensures Matches(item, FilterConfig(["PAYLOAD"], ["MEO"]), "")
    ensures !Matches(item, FilterConfig(["DEBRIS"], []), "")
  {
    EmptyQueryMatchesAll(item);
    SecondTokenIsMeo(item);
    assert OrbitTokens(item)[1] in OrbitTokens(item);
  }

  /** The page splits `{LEO,MEO}` into `LEO` and `MEO`. */
  lemma SecondTokenIsMeo(item: Satellite)
    requires item.orbitCode == "{LEO,MEO}"
    ensures |OrbitTokens(item)| == 2 && OrbitTokens(item)[1] == "MEO"
  {
    var a, b := "LEO", "MEO";
    LeoMeoIsAPair(item.orbitCode, a, b);
    PairTokens(item, a, b);
    MeoIsClean(b);
    CleanTokenKeepsClean(b);
  }

  /** `{LEO,MEO}` is the braced pair of `LEO` and `MEO`. Like UnknownIsClean,
      a lemma of its own only to keep the literal out of the scenario's
      proof context. */
  lemma LeoMeoIsAPair(code: string, a: string, b: string)
    requires code == "{LEO,MEO}" && a == "LEO" && b == "MEO"
    ensures code == "{" + a + [','] + b + "}"
  {
    assert "{" + a == "{LEO";
    assert "{" + a + [','] == "{LEO,";
    assert "{" + a + [','] + b == "{LEO,MEO";
  }

  /** A token that is already trimmed and upper-case is left as it is. */
  lemma CleanTokenKeepsClean(piece: string)
    requires IsTrimmed(piece) && NoLowerCase(piece)
    ensures CleanToken(piece) == piece
  {
    UpperFixesUpper(piece);
  }

  /** `MEO` is a clean token (a literal fact kept apart, as above). */
  lemma MeoIsClean(code: string)
    requires code == "MEO"
    ensures IsTrimmed(code) && NoLowerCase(code)
  {
  }

  /** A braced pair of codes gives the two cleaned codes as tokens. */
  lemma PairTokens(item: Satellite, a: string, b: string)
    requires ',' !in a && '{' !in a && '}' !in a
    requires ',' !in b && '{' !in b && '}' !in b
    requires item.orbitCode == "{" + a + [','] + b + "}"
    ensures OrbitTokens(item) == [CleanToken(a), CleanToken(b)]
  {
    var ts := [a, b];
    var key := OrbitKey(item);
    assert key == "{" + a + [','] + b + "}";
    PairPieces(a, b);
    assert OrbitTokens(item) == Map(CleanToken, Split(StripBraces(key), ','));
    MapPair(CleanToken, a, b);
  }

  /** Stripping the braces of a braced pair and splitting on the comma gives
      the pair back. */
  lemma PairPieces(a: string, b: string)
    requires ',' !in a && '{' !in a && '}' !in a
    requires ',' !in b && '{' !in b && '}' !in b
    ensures Split(StripBraces("{" + a + [','] + b + "}"), ',') == [a, b]
  {
    var j := a + [','] + b;
    assert "{" + a + [','] + b + "}" == "{" + j + "}";
    assert StripBraces("{" + j + "}") == j by {
      assert '{' !in j && '}' !in j;
      StripBracesAround(j);
    }
    var ts := [a, b];
    assert ts[1..] == [b];
    assert Join(ts, [',']) == j;
    SplitJoin(ts, ',');
  }

  /** The preview and the page disagree on a lower-case code: a record on
      `leo` is kept by the page under the `LEO` orbit filter, which upper-cases
      the record's tokens, while the panel's preview drops it. */
  lemma LowerCaseCodeSplitsPreviewAndPage(item: Satellite)
    requires item.orbitCode == "leo"
    ensures OrbitMatch(item, FilterConfig([], ["LEO"]))
    ensures !Filters.DraftMatch(item, [], ["LEO"])
  {
    var key := OrbitKey(item);
    LeoFacts(key);
    SingleTokenUpper(item);
    Filters.NormalizeSingleToken(key);
    assert ToUpper(key) in OrbitTokens(item);
  }

  /** The literal facts the `leo` witness needs, kept apart as above. */
  lemma LeoFacts(code: string)
    requires code == "leo"
    ensures Filters.IsOrbitToken(code) && ToUpper(code) == "LEO" && code != "LEO"
  {
    assert ToUpper(code)[0] == 'L' && ToUpper(code)[1] == 'E' && ToUpper(code)[2] == 'O';
  }

  /** Scenario: a record without an orbit code passes the filter allowing
      only the `UNKNOWN` orbit. */
  lemma ScenarioNoOrbitCode(item: Satellite)
    requires item.orbitCode == ""
    ensures OrbitMatch(item, FilterConfig([], ["UNKNOWN"]))
  {
    NoOrbitCodeIsUnknown(item);
    assert "UNKNOWN" in OrbitTokens(item);
  }
}
