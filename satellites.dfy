/** The catalogue record and the filter configuration shared by the
    components. The front end's `Satellite` type is not part of this model;
    every attribute is a string, and the empty string stands for an absent
    or empty attribute. */
module Satellites {
  import opened Seqs

  datatype Satellite = Satellite(
    name: string,
    noradCatId: string,
    orbitCode: string,
    objectType: string,
    countryCode: string,
    launchDate: string)

  /** The applied (or draft) filter: allowed object types and allowed orbit
      codes, each empty for "no restriction". */
  datatype FilterConfig = FilterConfig(objectTypes: seq<string>, orbitCodes: seq<string>)

  /** JavaScript's `s || d` on a string: an empty (or absent) `s` is falsy. */
  function OrDefault(s: string, d: string): (r: string)
    ensures s != "" ==> r == s
    ensures s == "" ==> r == d
  {
    if s == "" then d else s
  }

  /** `item.objectType || 'UNKNOWN'`. */
  function TypeKey(item: Satellite): (r: string) {
    OrDefault(item.objectType, "UNKNOWN")
  }

  /** `item.orbitCode || 'UNKNOWN'`. */
  function OrbitKey(item: Satellite): (r: string) {
    OrDefault(item.orbitCode, "UNKNOWN")
  }

  function IdOf(item: Satellite): (r: string) {
    item.noradCatId
  }

  /** Some entry carries the identifier `id` (`find` by `noradCatId`). */
  predicate HasId(sel: seq<Satellite>, id: string): (b: bool)
    ensures b <==> exists i :: 0 <= i < |sel| && sel[i].noradCatId == id
  {
    exists s :: s in sel && s.noradCatId == id
  }

  /** No identifier occurs twice. */
  predicate UniqueIds(sel: seq<Satellite>) {
    NoDuplicates(Map(IdOf, sel))
  }

  /** `sel.filter((s) => s.noradCatId !== id)`: every entry with identifier
      `id` dropped, every other entry kept in order. */
  function WithoutId(sel: seq<Satellite>, id: string): (r: seq<Satellite>)
    ensures !HasId(r, id)
    ensures forall s :: s in r <==> s in sel && s.noradCatId != id
    ensures IsSubsequence(r, sel) && |r| <= |sel|
    ensures forall s :: multiset(r)[s] == if s.noradCatId == id then 0 else multiset(sel)[s]
  {
    Filter((s: Satellite) => s.noradCatId != id, sel)
  }
}
