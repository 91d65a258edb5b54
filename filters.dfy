/** The filter panel (`components/Filters.tsx`): checkbox toggling over the
    draft lists, orbit-code normalisation, the draft filter, the two facet
    counters and the apply/clear transitions. */
module Filters {
  import opened Seqs
  import opened Text
  import opened Satellites

  /** The object-type checkboxes, in display order. */
  const ObjectTypeLabels: seq<string> := ["PAYLOAD", "ROCKET BODY", "DEBRIS", "UNKNOWN"]

  /** The orbit-code checkboxes, in display order. */
  const OrbitCodeLabels: seq<string> := [
    "LEO", "LEO1", "LEO2", "LEO3", "LEO4",
    "MEO", "GEO", "HEO", "IGO", "EGO",
    "NSO", "GTO", "GHO", "HAO",
    "MGO", "LMO", "UFO", "ESO", "UNKNOWN"]

  // ---------------------------------------------------------------- toggle

  /** A checkbox click on `value`: every occurrence removed when it is
      present, appended at the end when it is absent. Either way a value other
      than `value` is in the result exactly when it was in `list`. */
  function Toggle(list: seq<string>, value: string): (r: seq<string>)
    ensures value !in list ==> r == list + [value]
    ensures value in list ==> value !in r && IsSubsequence(r, list)
    ensures value in list ==> forall w :: multiset(r)[w] == if w == value then 0 else multiset(list)[w]
    ensures forall w :: w in r <==> (w in list) != (w == value)
  {
    if value in list then Filter(w => w != value, list) else list + [value]
  }

  /** Clicking an unchecked box twice restores the list. */
  lemma ToggleTwice(list: seq<string>, value: string)
    requires value !in list
    ensures Toggle(Toggle(list, value), value) == list
  {
    var p := w => w != value;
    FilterAppend(p, list, [value]);
    FilterAll(p, list);
    assert Filter(p, [value]) == [];
  }

  /** A list without repetitions stays without repetitions. */
  lemma ToggleKeepsDistinct(list: seq<string>, value: string)
    requires NoDuplicates(list)
    ensures NoDuplicates(Toggle(list, value))
  {
    var idf := (w: string) => w;
    if value in list {
      assert Map(idf, list) == list;
      var r := Toggle(list, value);
      SubsequenceKeepsDistinct(idf, r, list);
      assert Map(idf, r) == r;
    } else {
      var r := list + [value];
      forall i, j | 0 <= i < j < |r| ensures r[i] != r[j] {
        if j == |list| { assert r[i] == list[i]; }
      }
    }
  }

  // ------------------------------------------------- orbit-code normalising

  /** What `normalizeOrbitCodes` can produce: non-empty, trimmed, and free of
      braces and commas. */
  predicate IsOrbitToken(t: string) {
    t != "" && IsTrimmed(t) && '{' !in t && '}' !in t && ',' !in t
  }

  /** `normalizeOrbitCodes`: an empty code and the literal `UNKNOWN` both mean
      `["UNKNOWN"]`; otherwise braces are removed, the rest is split on
      commas, each piece is trimmed and empty pieces are dropped. */
  function NormalizeOrbitCodes(orbitCode: string): (r: seq<string>)
    ensures orbitCode == "" || orbitCode == "UNKNOWN" ==> r == ["UNKNOWN"]
    ensures forall t :: t in r ==> IsOrbitToken(t)
  {
    if orbitCode == "" || orbitCode == "UNKNOWN" then ["UNKNOWN"]
    else
      var pieces := Split(StripBraces(orbitCode), ',');
      var r := Filter((t: string) => t != "", Map(Trim, pieces));
      assert forall t :: t in r ==> IsOrbitToken(t) by {
        forall t | t in r ensures IsOrbitToken(t) {
          var k :| 0 <= k < |pieces| && Map(Trim, pieces)[k] == t;
          assert forall c :: c in t ==> c in pieces[k];
        }
      }
      r
  }

  /** A normalised code other than the `UNKNOWN` default is made of the
      characters of the raw code. */
  lemma NormalizedCharsFromCode(orbitCode: string, t: string)
    requires orbitCode != "" && orbitCode != "UNKNOWN"
    requires t in NormalizeOrbitCodes(orbitCode)
    ensures forall c :: c in t ==> c in orbitCode
  {
    var stripped := StripBraces(orbitCode);
    var pieces := Split(stripped, ',');
    var trimmed := Map(Trim, pieces);
    assert t in trimmed;
    var k :| 0 <= k < |pieces| && trimmed[k] == t;
    assert t == Trim(pieces[k]);
    assert forall c :: c in pieces[k] ==> c in stripped;
  }

  /** The brace-delimited text form of a list of codes: `{A,wB,wC}` where `w`
      is whitespace after each comma, as in `{LEO, MEO}`. */
  function Braced(codes: seq<string>, w: string): (r: string) {
    "{" + Join(codes, [','] + w) + "}"
  }

  /** Every piece after the first prefixed with `w`. */
  function PadAfterFirst(codes: seq<string>, w: string): (r: seq<string>)
    ensures |r| == |codes|
    ensures forall i :: 0 < i < |codes| ==> r[i] == w + codes[i]
    ensures codes != [] ==> r[0] == codes[0]
  {
    if codes == [] then [] else [codes[0]] + Prefixed(w, codes[1..])
  }

  /** Every piece prefixed with `w`. */
  function Prefixed(w: string, ts: seq<string>): (r: seq<string>)
    ensures |r| == |ts|
    ensures forall i :: 0 <= i < |ts| ==> r[i] == w + ts[i]
  {
    if ts == [] then [] else [w + ts[0]] + Prefixed(w, ts[1..])
  }

  lemma {:induction false} JoinPadded(codes: seq<string>, w: string)
    ensures Join(codes, [','] + w) == Join(PadAfterFirst(codes, w), [','])
    decreases |codes|
  {
    if |codes| > 1 {
      var rest := codes[1..];
      var tail := Prefixed(w, rest[1..]);
      assert Prefixed(w, rest) == [w + rest[0]] + tail;
      assert PadAfterFirst(rest, w) == [rest[0]] + tail;
      JoinPadded(rest, w);
      JoinFirstPrefix(w, rest[0], tail, [',']);
      assert PadAfterFirst(codes, w)[1..] == [w + rest[0]] + tail;
    }
  }

  /** The comma pieces of a braced text form are the codes, padded. */
  lemma BracedPieces(codes: seq<string>, w: string)
    requires forall i :: 0 <= i < |codes| ==> IsOrbitToken(codes[i])
    requires AllSpace(w)
    ensures Split(StripBraces(Braced(codes, w)), ',') == if codes == [] then [""] else PadAfterFirst(codes, w)
  {
    BracedStripped(codes, w);
    if codes != [] {
      JoinPadded(codes, w);
      PaddedHasNoComma(codes, w);
      SplitJoin(PadAfterFirst(codes, w), ',');
    }
  }

  /** Stripping the braces of the text form leaves the joined codes. */
  lemma BracedStripped(codes: seq<string>, w: string)
    requires forall i :: 0 <= i < |codes| ==> IsOrbitToken(codes[i])
    requires AllSpace(w)
    ensures StripBraces(Braced(codes, w)) == Join(codes, [','] + w)
  {
    var sep := [','] + w;
    assert forall c :: c in w ==> IsSpace(c);
    assert '{' !in sep && '}' !in sep;
    JoinAvoids(codes, sep, '{');
    JoinAvoids(codes, sep, '}');
    StripBracesAround(Join(codes, sep));
  }

  /** Padding whitespace onto comma-free codes adds no comma. */
  lemma PaddedHasNoComma(codes: seq<string>, w: string)
    requires forall i :: 0 <= i < |codes| ==> IsOrbitToken(codes[i])
    requires AllSpace(w)
    ensures forall i :: 0 <= i < |codes| ==> ',' !in PadAfterFirst(codes, w)[i]
  {
    var padded := PadAfterFirst(codes, w);
    assert forall c :: c in w ==> IsSpace(c);
    forall i | 0 <= i < |padded| ensures ',' !in padded[i] {
      if i > 0 {
        assert padded[i] == w + codes[i];
      }
    }
  }

  /** Trimming the padded pieces gives back the codes. */
  lemma TrimPadded(codes: seq<string>, w: string)
    requires forall i :: 0 <= i < |codes| ==> IsOrbitToken(codes[i])
    requires AllSpace(w)
    ensures Map(Trim, PadAfterFirst(codes, w)) == codes
  {
    var padded := PadAfterFirst(codes, w);
    forall i | 0 <= i < |codes| ensures Trim(padded[i]) == codes[i] {
      if i > 0 {
        assert padded[i] == w + codes[i];
        TrimAfterSpace(w, codes[i]);
      }
    }
  }

  /** Round trip: normalising the braced text form of well-formed codes gives
      back exactly those codes, in their order. */
  lemma NormalizeBraced(codes: seq<string>, w: string)
    requires forall i :: 0 <= i < |codes| ==> IsOrbitToken(codes[i])
    requires AllSpace(w)
    ensures NormalizeOrbitCodes(Braced(codes, w)) == codes
  {
    var b := Braced(codes, w);
    assert b[0] == '{';
    assert b != "" && b != "UNKNOWN";
    BracedPieces(codes, w);
    var nonEmpty := (t: string) => t != "";
    if codes == [] {
      assert Map(Trim, [""]) == [""];
    } else {
      TrimPadded(codes, w);
      FilterAll(nonEmpty, codes);
    }
  }

  /** `{LEO, MEO}` is normalised to `["LEO", "MEO"]`. */
  lemma NormalizeTwoCodes(orbitCode: string)
    requires orbitCode == "{LEO, MEO}"
    ensures NormalizeOrbitCodes(orbitCode) == ["LEO", "MEO"]
  {
    var codes := ["LEO", "MEO"];
    assert forall i :: 0 <= i < |codes| ==> IsOrbitToken(codes[i]) by {
      assert IsOrbitToken(codes[0]) && IsOrbitToken(codes[1]);
    }
    assert Braced(codes, " ") == orbitCode by {
      assert codes[1..] == ["MEO"];
      assert [','] + " " == ", ";
      assert Join(codes, ", ") == "LEO" + ", " + "MEO";
      assert "{" + ("LEO" + ", " + "MEO") + "}" == orbitCode;
    }
    NormalizeBraced(codes, " ");
  }

  /** A brace-only code is normalised to no code at all. */
  lemma NormalizeBracesOnly(orbitCode: string)
    requires orbitCode == "{}"
    ensures NormalizeOrbitCodes(orbitCode) == []
  {
    var none: seq<string> := [];
    var w := orbitCode[..0];
    assert Braced(none, w) == orbitCode;
    NormalizeBraced(none, w);
  }

  /** Every orbit-code checkbox label normalises to itself alone, so a record
      carrying exactly that code is matched by that checkbox. */
  lemma OrbitLabelsNormalizeToThemselves(i: nat)
    requires i < |OrbitCodeLabels|
    ensures NormalizeOrbitCodes(OrbitCodeLabels[i]) == [OrbitCodeLabels[i]]
  {
    var c := OrbitCodeLabels[i];
    if c != "UNKNOWN" {
      assert IsOrbitToken(c);
      NormalizeSingleToken(c);
    }
  }

  /** A code that is a single well-formed token normalises to itself alone. */
  lemma NormalizeSingleToken(orbitCode: string)
    requires IsOrbitToken(orbitCode)
    ensures NormalizeOrbitCodes(orbitCode) == [orbitCode]
  {
    if orbitCode != "UNKNOWN" {
      StripBracesNone(orbitCode);
      SplitNone(orbitCode, ',');
      MapCons(Trim, orbitCode, []);
      assert [orbitCode] + [] == [orbitCode];
      FilterAll((t: string) => t != "", [orbitCode]);
    }
  }

  // ----------------------------------------------------------- draft filter

  /** The orbit codes of a record, as the panel sees them. */
  function OrbitsOf(item: Satellite): (r: seq<string>) {
    NormalizeOrbitCodes(OrbitKey(item))
  }

  /** `list.some((code) => codes.includes(code))`. */
  predicate AnyIn(list: seq<string>, codes: seq<string>) {
    exists c :: c in list && c in codes
  }

  /** The draft filter's test of one record: type match and orbit match, an
      empty selection matching everything. */
  predicate DraftMatch(item: Satellite, types: seq<string>, orbits: seq<string>) {
    && (|types| == 0 || TypeKey(item) in types)
    && (|orbits| == 0 || AnyIn(OrbitsOf(item), orbits))
  }

  /** The panel's `filteredData`: the records that pass the draft, in their
      original order. */
  function DraftFilter(data: seq<Satellite>, types: seq<string>, orbits: seq<string>): (r: seq<Satellite>)
    ensures IsSubsequence(r, data)
    ensures forall item :: item in r <==> item in data && DraftMatch(item, types, orbits)
    ensures forall item :: multiset(r)[item] == if DraftMatch(item, types, orbits) then multiset(data)[item] else 0
  {
    Filter(item => DraftMatch(item, types, orbits), data)
  }

  /** With nothing ticked the draft keeps every record. */
  lemma DraftFilterUnrestricted(data: seq<Satellite>)
    ensures DraftFilter(data, [], []) == data
  {
    FilterAll(item => DraftMatch(item, [], []), data);
  }

  // ----------------------------------------------------------- facet counts

  /** `acc[k] || 0`. */
  function CountOf(acc: map<string, nat>, k: string): (n: nat) {
    if k in acc then acc[k] else 0
  }

  /** Bumping the count of `code` changes no other count. */
  lemma CountOfBump(acc: map<string, nat>, code: string, k: string)
    ensures CountOf(acc[code := CountOf(acc, code) + 1], k) == CountOf(acc, k) + (if k == code then 1 else 0)
  {
  }

  /** The number of records whose object type, read as `'UNKNOWN'` when
      empty, is `k`. */
  function TypeTally(data: seq<Satellite>, k: string): (n: nat)
    ensures n <= |data|
    ensures k == "" ==> n == 0
  {
    if data == [] then 0
    else TypeTally(data[..|data| - 1], k) + (if TypeKey(data[|data| - 1]) == k then 1 else 0)
  }

  /** Occurrences of `k` summed over the normalised orbit lists of the
      records: a code listed twice for one record counts twice. */
  function OrbitTally(data: seq<Satellite>, k: string): (n: nat)
    ensures k == "" ==> n == 0
  {
    if data == [] then 0
    else
      var last := OrbitsOf(data[|data| - 1]);
      assert k == "" ==> k !in last;
      OrbitTally(data[..|data| - 1], k) + Count(last, k)
  }

  /** The total length of the normalised orbit lists. */
  function OrbitTotal(data: seq<Satellite>): (n: nat) {
    if data == [] then 0
    else OrbitTotal(data[..|data| - 1]) + |OrbitsOf(data[|data| - 1])|
  }

  /** The tally over one more record of a prefix. */
  lemma OrbitTallyStep(data: seq<Satellite>, i: nat, k: string)
    requires i < |data|
    ensures OrbitTally(data[..i + 1], k) == OrbitTally(data[..i], k) + Count(OrbitsOf(data[i]), k)
  {
    assert data[..i + 1][..i] == data[..i];
  }

  /** The total over one more record of a prefix. */
  lemma OrbitTotalStep(data: seq<Satellite>, i: nat)
    requires i < |data|
    ensures OrbitTotal(data[..i + 1]) == OrbitTotal(data[..i]) + |OrbitsOf(data[i])|
  {
    assert data[..i + 1][..i] == data[..i];
  }

  /** The sum of the values of a map. */
  ghost function MapTotal(m: map<string, nat>): nat
    decreases |m|
  {
    if m == map[] then 0
    else
      var k :| k in m;
      assert |m - {k}| < |m| by { MapRemoveSize(m, k); }
      m[k] + MapTotal(m - {k})
  }

  lemma MapRemoveSize(m: map<string, nat>, k: string)
    requires k in m
    ensures |m - {k}| == |m| - 1
  {
    assert (m - {k}).Keys == m.Keys - {k};
  }

  /** The total can be taken apart at any key. */
  lemma {:induction false} MapTotalAt(m: map<string, nat>, k: string)
    requires k in m
    ensures MapTotal(m) == m[k] + MapTotal(m - {k})
    decreases |m|
  {
    var j :| j in m && MapTotal(m) == m[j] + MapTotal(m - {j});
    if j != k {
      MapRemoveSize(m, j);
      MapRemoveSize(m, k);
      MapTotalAt(m - {j}, k);
      MapTotalAt(m - {k}, j);
      assert m - {j} - {k} == m - {k} - {j};
    }
  }

  /** Adding one to the count of `k` adds one to the total. */
  lemma MapTotalBump(m: map<string, nat>, k: string)
    ensures MapTotal(m[k := CountOf(m, k) + 1]) == MapTotal(m) + 1
  {
    var m' := m[k := CountOf(m, k) + 1];
    MapTotalAt(m', k);
    if k in m {
      MapTotalAt(m, k);
      assert m' - {k} == m - {k};
    } else {
      assert m' - {k} == m;
    }
  }

  /** The panel's `typeCounts`: `acc[type] += 1` for every record, in order.
      Each key's count is its tally, only keys that occur are present, and
      the counts add up to the number of records. */
  method TypeCounts(data: seq<Satellite>) returns (acc: map<string, nat>)
    ensures forall k :: CountOf(acc, k) == TypeTally(data, k)
    ensures forall k :: k in acc ==> acc[k] > 0
    ensures MapTotal(acc) == |data|
  {
    acc := map[];
    for i := 0 to |data|
      invariant forall k :: CountOf(acc, k) == TypeTally(data[..i], k)
      invariant forall k :: k in acc ==> acc[k] > 0
      invariant MapTotal(acc) == i
    {
      var key := TypeKey(data[i]);
      MapTotalBump(acc, key);
      acc := acc[key := CountOf(acc, key) + 1];
      assert data[..i + 1][..i] == data[..i];
    }
    assert data[..|data|] == data;
  }

  /** The panel's `orbitCounts`: for every record, `acc[code] += 1` for every
      code of its normalised orbit list. */
  method OrbitCounts(data: seq<Satellite>) returns (acc: map<string, nat>)
    ensures forall k :: CountOf(acc, k) == OrbitTally(data, k)
    ensures forall k :: k in acc ==> acc[k] > 0
    ensures MapTotal(acc) == OrbitTotal(data)
  {
    acc := map[];
    for i := 0 to |data|
      invariant forall k :: CountOf(acc, k) == OrbitTally(data[..i], k)
      invariant forall k :: k in acc ==> acc[k] > 0
      invariant MapTotal(acc) == OrbitTotal(data[..i])
    {
      var orbits := OrbitsOf(data[i]);
      for j := 0 to |orbits|
        invariant forall k :: CountOf(acc, k) == OrbitTally(data[..i], k) + Count(orbits[..j], k)
        invariant forall k :: k in acc ==> acc[k] > 0
        invariant MapTotal(acc) == OrbitTotal(data[..i]) + j
      {
        var code := orbits[j];
        MapTotalBump(acc, code);
        var acc' := acc[code := CountOf(acc, code) + 1];
        forall k ensures CountOf(acc', k) == OrbitTally(data[..i], k) + Count(orbits[..j + 1], k) {
          CountPrefixStep(orbits, j, k);
          CountOfBump(acc, code, k);
        }
        acc := acc';
      }
      assert orbits[..|orbits|] == orbits;
      forall k {
        OrbitTallyStep(data, i, k);
      }
      OrbitTotalStep(data, i);
    }
    assert data[..|data|] == data;
  }

  // ------------------------------------------------------- the panel state

  /** The panel's draft checkbox state and, through `setFilters`, the
      applied filter it hands to the page. */
  class FilterPanel {
    var selectedTypes: seq<string>
    var selectedOrbits: seq<string>
    var applied: FilterConfig

    /** The drafts start as the applied filter. */
    constructor (filters: FilterConfig)
      ensures selectedTypes == filters.objectTypes
      ensures selectedOrbits == filters.orbitCodes
      ensures applied == filters
    {
      selectedTypes := filters.objectTypes;
      selectedOrbits := filters.orbitCodes;
      applied := filters;
    }

    /** The draft filter over the page's data: the records that pass the
        current drafts, in their original order. */
    function FilteredData(data: seq<Satellite>): (r: seq<Satellite>)
      reads this
      ensures IsSubsequence(r, data)
      ensures forall item :: item in r <==> item in data && DraftMatch(item, selectedTypes, selectedOrbits)
      ensures forall item :: multiset(r)[item] == if DraftMatch(item, selectedTypes, selectedOrbits) then multiset(data)[item] else 0
    {
      DraftFilter(data, selectedTypes, selectedOrbits)
    }

    /** An object-type checkbox changes the type draft only. */
    method ToggleType(objectType: string)
      modifies this
      ensures selectedTypes == Toggle(old(selectedTypes), objectType)
      ensures selectedOrbits == old(selectedOrbits) && applied == old(applied)
    {
      selectedTypes := Toggle(selectedTypes, objectType);
    }

    /** An orbit-code checkbox changes the orbit draft only. */
    method ToggleOrbit(code: string)
      modifies this
      ensures selectedOrbits == Toggle(old(selectedOrbits), code)
      ensures selectedTypes == old(selectedTypes) && applied == old(applied)
    {
      selectedOrbits := Toggle(selectedOrbits, code);
    }

    /** `applyFilters`: the applied filter becomes exactly the drafts. */
    method ApplyFilters()
      modifies this
      ensures applied == FilterConfig(selectedTypes, selectedOrbits)
      ensures selectedTypes == old(selectedTypes) && selectedOrbits == old(selectedOrbits)
    {
      applied := FilterConfig(selectedTypes, selectedOrbits);
    }

    /** `clearFilters`: both drafts and the applied filter become empty, so
      the draft filter then keeps every record. */
    method ClearFilters()
      modifies this
      ensures selectedTypes == [] && selectedOrbits == []
      ensures applied == FilterConfig([], [])
      ensures forall data :: FilteredData(data) == data
    {
      selectedTypes := [];
      selectedOrbits := [];
      applied := FilterConfig([], []);
      forall data: seq<Satellite> ensures FilteredData(data) == data {
        DraftFilterUnrestricted(data);
      }
    }
  }
}
