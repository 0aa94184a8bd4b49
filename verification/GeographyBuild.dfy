/** The closing passes of `build`: completed mappings, added aliases, validation. */
module GeographyBuild {
  import opened Geography
  import A = GeographyAliases
  import M = GeographyMappings
  import V = GeographyValidation

  /** What is supplied stays in front, and what is returned is valid. */
  method Finish(m: Manifest, overrides: map<string, Key>, t: A.Text, c: V.Coverage) returns (ok: bool)
    modifies m`mappings, m`alternateNames
    ensures ok ==> V.ValidManifest(m.places, m.alternateNames, m.mappings, c)
    ensures ok ==> old(m.mappings) <= m.mappings && old(m.alternateNames) <= m.alternateNames
    ensures ok <==>
      var airports, localities := OfType(m.places, "airport"), OfType(m.places, "locality");
      var added := M.Added(airports, localities, old(m.mappings), overrides, t.nameKey);
      && added.Some?
      && var mappings := old(m.mappings) + added.value;
         var names := A.AddedNames(mappings, m.places, old(m.alternateNames), t);
         names.Some? && V.ValidManifest(m.places, old(m.alternateNames) + names.value, mappings, c)
  {
    ok := M.DeriveAirportMappings(m, overrides, t.nameKey);
    if !ok {
      return;
    }
    ok := A.AddReviewedServedLocalityAliases(m, t);
    if !ok {
      return;
    }
    ok := V.ValidateManifest(m, c);
  }

  /** Row `k` is the only active primary served row of airport `i`, and leads to locality `l` of its country. */
  ghost predicate ServedAlone(places: seq<Place>, mappings: seq<Mapping>, i: nat, k: nat, l: nat)
    requires i < |places|
  {
    && k < |mappings| && l < |places|
    && M.PrimaryFor(mappings[k], KeyOfPlace(places[i])) && V.Joins(places[i], places[l], mappings[k])
    && forall j :: 0 <= j < |mappings| && M.PrimaryFor(mappings[j], KeyOfPlace(places[i])) ==> j == k
  }

  /** A manifest that came through has exactly one active primary served locality per airport, an existing
    * locality of the same country, and no mapping, name or place twice. */
  lemma ValidMeans(places: seq<Place>, names: seq<AlternateName>, mappings: seq<Mapping>, c: V.Coverage, i: nat)
    requires V.ValidManifest(places, names, mappings, c)
    requires i < |places| && places[i].placeType == "airport"
    ensures exists k: nat, l: nat :: ServedAlone(places, mappings, i, k, l)
  {
    var key := KeyOfPlace(places[i]);
    var k := OnePrimary(mappings, key);
    var a, l :| 0 <= a < |places| && 0 <= l < |places| && V.Joins(places[a], places[l], mappings[k]);
    V.IdsUnique(places);
    V.SamePlace(places, places[i], a);
    assert ServedAlone(places, mappings, i, k, l);
  }

  lemma {:induction false} NonePrimary(mappings: seq<Mapping>, key: RowKey)
    requires M.Primaries(mappings, key) == 0
    ensures forall j :: 0 <= j < |mappings| ==> !M.PrimaryFor(mappings[j], key)
    decreases |mappings|
  {
    if mappings != [] {
      var shorter := mappings[..|mappings| - 1];
      NonePrimary(shorter, key);
      assert forall j :: 0 <= j < |shorter| ==> mappings[j] == shorter[j];
    }
  }

  /** A count of one is one row. */
  lemma {:induction false} OnePrimary(mappings: seq<Mapping>, key: RowKey) returns (k: nat)
    requires M.Primaries(mappings, key) == 1
    ensures k < |mappings| && M.PrimaryFor(mappings[k], key)
    ensures forall j :: 0 <= j < |mappings| && M.PrimaryFor(mappings[j], key) ==> j == k
    decreases |mappings|
  {
    var shorter := mappings[..|mappings| - 1];
    assert forall j :: 0 <= j < |shorter| ==> mappings[j] == shorter[j];
    if M.PrimaryFor(mappings[|mappings| - 1], key) {
      k := |mappings| - 1;
      NonePrimary(shorter, key);
    } else {
      k := OnePrimary(shorter, key);
    }
  }
}
