/** The rows of the geography manifest and the keys under which its passes look them up. */
module Geography {
  import opened Wrappers

  type Key = (string, string)

  /** The source of the rows that the review of served localities adds. */
  const REVIEW_SOURCE := "shiptrip-airport-locality-review"

  datatype Place = Place(
    source: string,
    sourceId: string,
    country: string,
    placeType: string,
    name: string,
    parentSource: Option<string>,
    parentId: Option<string>,
    latitude: Option<string>,
    longitude: Option<string>,
    airportType: string,
    passengerUse: bool,
    scheduled: bool,
    hint: string)

  datatype Alias = Alias(name: string, language: string)

  /** A field that a row of the mapping file may leave out is an option. */
  datatype Mapping = Mapping(
    source: Option<string>,
    sourceId: Option<string>,
    airportSource: Option<string>,
    airportId: Option<string>,
    localitySource: Option<string>,
    localityId: Option<string>,
    relationship: Option<string>,
    isPrimary: bool,
    active: bool,
    aliases: seq<Alias>)

  datatype AlternateName = AlternateName(
    placeSource: Option<string>,
    placeId: Option<string>,
    name: string,
    language: string,
    source: Option<string>,
    sourceId: Option<string>)

  /** The manifest that every pass reads and extends. */
  class Manifest {
    var places: seq<Place>
    var alternateNames: seq<AlternateName>
    var mappings: seq<Mapping>

    constructor ()
      ensures places == [] && alternateNames == [] && mappings == []
    {
      places, alternateNames, mappings := [], [], [];
    }
  }

  function PlaceKey(p: Place): Key { (p.source, p.sourceId) }

  /** `row.get(name, row.get("source"))` with `str(row.get(id, ""))`; no place has a key without a source. */
  type RowKey = (Option<string>, string)

  function RowKeyOf(source: Option<string>, default: Option<string>, id: Option<string>): RowKey {
    (if source.Some? then source else default, if id.Some? then id.value else "")
  }

  function AirportKey(m: Mapping): RowKey { RowKeyOf(m.airportSource, m.source, m.airportId) }

  function LocalityKey(m: Mapping): RowKey { RowKeyOf(m.localitySource, m.source, m.localityId) }

  function AlternatePlaceKey(a: AlternateName): RowKey { RowKeyOf(a.placeSource, a.source, a.placeId) }

  function KeyOfPlace(p: Place): RowKey { (Some(p.source), p.sourceId) }

  predicate Served(m: Mapping) { m.relationship.None? || m.relationship.value == "served" }

  /** The rows of one type, in order. */
  function OfType(places: seq<Place>, placeType: string): (ps: seq<Place>)
    ensures forall p :: p in ps <==> p in places && p.placeType == placeType
  {
    if places == [] then []
    else
      var before := OfType(places[..|places| - 1], placeType);
      if places[|places| - 1].placeType == placeType then before + [places[|places| - 1]] else before
  }

  /** Lookup in a dictionary built from the rows: a later row replaces an earlier one of the same key. */
  function LastAt(places: seq<Place>, key: RowKey): (p: Option<Place>)
    ensures p.Some? <==> exists i :: 0 <= i < |places| && KeyOfPlace(places[i]) == key
    ensures p.Some? ==> p.value in places && KeyOfPlace(p.value) == key
  {
    if places == [] then None
    else if KeyOfPlace(places[|places| - 1]) == key then Some(places[|places| - 1])
    else LastAt(places[..|places| - 1], key)
  }

  /** `p` is the last place with the key. */
  ghost predicate LastUnder(places: seq<Place>, key: RowKey, p: Place) {
    exists i :: LastIndex(places, key, i) && places[i] == p
  }

  ghost predicate LastIndex(places: seq<Place>, key: RowKey, i: int) {
    0 <= i < |places| && KeyOfPlace(places[i]) == key && forall k :: i < k < |places| ==> KeyOfPlace(places[k]) != key
  }

  lemma LastUnderMore(places: seq<Place>, key: RowKey, p: Place)
    requires places != []
    ensures var n := |places| - 1;
      LastUnder(places, key, p) <==>
        if KeyOfPlace(places[n]) == key then places[n] == p else LastUnder(places[..n], key, p)
  {
    var n := |places| - 1;
    var shorter := places[..n];
    if KeyOfPlace(places[n]) == key {
      assert LastIndex(places, key, n);
    } else {
      forall i
        ensures LastIndex(places, key, i) <==> LastIndex(shorter, key, i)
      {
        LastIndexShorter(places, shorter, key, i);
      }
      assert forall i :: 0 <= i < n ==> shorter[i] == places[i];
    }
  }

  lemma LastIndexShorter(places: seq<Place>, shorter: seq<Place>, key: RowKey, i: int)
    requires places != [] && shorter == places[..|places| - 1] && KeyOfPlace(places[|places| - 1]) != key
    ensures LastIndex(places, key, i) <==> LastIndex(shorter, key, i)
  {
    assert forall k :: 0 <= k < |shorter| ==> KeyOfPlace(places[k]) == KeyOfPlace(shorter[k]);
  }

  lemma {:induction false} LastAtIff(places: seq<Place>, key: RowKey, p: Place)
    ensures LastAt(places, key) == Some(p) <==> LastUnder(places, key, p)
    decreases |places|
  {
    if places != [] {
      LastAtIff(places[..|places| - 1], key, p);
      LastUnderMore(places, key, p);
    }
  }

  ghost predicate UniqueKeys(places: seq<Place>) {
    forall i, j :: 0 <= i < j < |places| ==> PlaceKey(places[i]) != PlaceKey(places[j])
  }

}
