/** The closing validation of the manifest, against what a valid manifest is. */
module GeographyValidation {
  import opened Wrappers
  import opened Decimal
  import opened Geography
  import M = GeographyMappings

  type TypeKey = (string, string)

  type Positive = n: nat | n > 0 witness 1

  /** How many places of each country and type there have to be, and how many airports in each country. */
  datatype Coverage = Coverage(counts: map<TypeKey, Positive>, airports: map<string, nat>)

  const LAUNCH := Coverage(
    map[("DZ", "admin_region") := 69, ("DZ", "locality") := 1541,
        ("FR", "locality") := 34875, ("FR", "admin_region") := 119,
        ("ES", "locality") := 8132, ("ES", "admin_region") := 71,
        ("DE", "locality") := 10749, ("DE", "admin_region") := 417],
    map["DZ" := 31, "FR" := 49, "ES" := 42, "DE" := 39])

  const COUNTRIES := {"DZ", "FR", "ES", "DE"}
  const AIRPORT_TYPES := {"large_airport", "medium_airport", "small_airport"}

  // ----------------------------------------------------------------------
  // What a valid manifest is
  // ----------------------------------------------------------------------

  function Count(places: seq<Place>, n: nat, key: TypeKey): nat
    requires n <= |places|
  {
    if n == 0 then 0
    else Count(places, n - 1, key) + if (places[n - 1].country, places[n - 1].placeType) == key then 1 else 0
  }

  ghost predicate Counted(places: seq<Place>, c: Coverage) {
    && (forall key :: key in c.counts ==> Count(places, |places|, key) == c.counts[key])
    && (forall code :: code in c.airports ==> Count(places, |places|, (code, "airport")) == c.airports[code])
  }

  ghost predicate HasWilaya(places: seq<Place>, n: nat) {
    exists i :: 0 <= i < |places| && places[i].source == "algeria-wilaya" && places[i].sourceId == Digits(n)
  }

  /** The eleven wilayas of 2026. */
  ghost predicate NewWilayas(places: seq<Place>) {
    forall n: nat :: 59 <= n <= 69 ==> HasWilaya(places, n)
  }

  function ParentKey(p: Place): RowKey { RowKeyOf(p.parentSource, Some(p.source), p.parentId) }

  ghost predicate ParentOk(places: seq<Place>, p: Place) {
    && (p.parentId.Some? ==>
          exists i :: 0 <= i < |places| && KeyOfPlace(places[i]) == ParentKey(p) && places[i].country == p.country)
    && (p.country == "DZ" && p.placeType == "locality" ==> p.parentSource == Some("algeria-wilaya"))
  }

  predicate Blank(text: Option<string>) { text.None? || text.value == "" }

  ghost predicate AirportOk(places: seq<Place>, p: Place) {
    && !Blank(p.latitude) && !Blank(p.longitude)
    && p.country in COUNTRIES && p.airportType in AIRPORT_TYPES && p.passengerUse && p.scheduled
    && exists i :: 0 <= i < |places| && places[i].placeType == "admin_region" &&
         KeyOfPlace(places[i]) == RowKeyOf(p.parentSource, None, p.parentId)
  }

  ghost predicate NameOk(places: seq<Place>, a: AlternateName) {
    exists i :: 0 <= i < |places| && KeyOfPlace(places[i]) == AlternatePlaceKey(a)
  }

  ghost predicate MappingOk(places: seq<Place>, m: Mapping) {
    && (m.relationship.Some? ==> m.relationship.value in {"served", "physical"})
    && exists i, k :: 0 <= i < |places| && 0 <= k < |places| && Joins(places[i], places[k], m)
  }

  predicate Joins(airport: Place, locality: Place, m: Mapping) {
    && airport.placeType == "airport" && KeyOfPlace(airport) == AirportKey(m)
    && locality.placeType == "locality" && KeyOfPlace(locality) == LocalityKey(m)
    && airport.country == locality.country
  }

  ghost predicate Distinct<T>(s: seq<T>) {
    forall i, k :: 0 <= i < k < |s| ==> s[i] != s[k]
  }

  function NameIds(rows: seq<AlternateName>): seq<(Option<string>, Option<string>)> {
    seq(|rows|, i requires 0 <= i < |rows| => (rows[i].source, rows[i].sourceId))
  }

  function MappingIds(rows: seq<Mapping>): seq<(Option<string>, Option<string>)> {
    seq(|rows|, i requires 0 <= i < |rows| => (rows[i].source, rows[i].sourceId))
  }

  function PlaceIds(places: seq<Place>): seq<Key> {
    seq(|places|, i requires 0 <= i < |places| => PlaceKey(places[i]))
  }

  ghost predicate PlacesOk(places: seq<Place>, c: Coverage) {
    && Distinct(PlaceIds(places))
    && Counted(places, c)
    && NewWilayas(places)
    && (forall i :: 0 <= i < |places| ==> ParentOk(places, places[i]))
    && (exists i :: 0 <= i < |places| && places[i].placeType == "airport")
    && (forall i :: 0 <= i < |places| && places[i].placeType == "airport" ==> AirportOk(places, places[i]))
  }

  ghost predicate NamesOk(places: seq<Place>, names: seq<AlternateName>) {
    Distinct(NameIds(names)) && forall i :: 0 <= i < |names| ==> NameOk(places, names[i])
  }

  ghost predicate MappingsOk(places: seq<Place>, mappings: seq<Mapping>) {
    && Distinct(MappingIds(mappings))
    && (forall i :: 0 <= i < |mappings| ==> MappingOk(places, mappings[i]))
    && (forall i :: 0 <= i < |places| && places[i].placeType == "airport" ==>
          M.Primaries(mappings, KeyOfPlace(places[i])) == 1)
  }

  ghost predicate ValidManifest(places: seq<Place>, names: seq<AlternateName>, mappings: seq<Mapping>, c: Coverage) {
    PlacesOk(places, c) && NamesOk(places, names) && MappingsOk(places, mappings)
  }

  // ----------------------------------------------------------------------
  // Lookups and sizes
  // ----------------------------------------------------------------------

  function SetOf<T(==)>(s: seq<T>): set<T> { set x | x in s }

  /** A sequence is as long as its set of elements is large exactly when nothing repeats. */
  lemma {:induction false} DistinctIff<T>(s: seq<T>)
    ensures |SetOf(s)| <= |s|
    ensures |SetOf(s)| == |s| <==> Distinct(s)
    decreases |s|
  {
    if s != [] {
      var n := |s| - 1;
      var before := s[..n];
      DistinctIff(before);
      assert s == before + [s[n]];
      if s[n] in before {
        var i :| 0 <= i < n && before[i] == s[n];
        assert SetOf(s) == SetOf(before);
        assert s[i] == s[n];
      } else {
        assert SetOf(s) == SetOf(before) + {s[n]};
        assert Distinct(s) <==> Distinct(before) by {
          assert forall i :: 0 <= i < n ==> s[i] == before[i];
        }
      }
    } else {
      assert SetOf(s) == {};
    }
  }

  lemma IdsUnique(places: seq<Place>)
    ensures Distinct(PlaceIds(places)) <==> UniqueKeys(places)
  {
    assert forall i :: 0 <= i < |places| ==> PlaceIds(places)[i] == PlaceKey(places[i]);
    if Distinct(PlaceIds(places)) {
      forall i, k | 0 <= i < k < |places|
        ensures PlaceKey(places[i]) != PlaceKey(places[k])
      {
        assert PlaceIds(places)[i] != PlaceIds(places)[k];
      }
    }
  }

  /** With unique keys a lookup finds the one place with that key. */
  lemma LookupIff(places: seq<Place>, key: RowKey, i: nat)
    requires UniqueKeys(places) && i < |places| && KeyOfPlace(places[i]) == key
    ensures LastAt(places, key) == Some(places[i])
  {
  }

  // ----------------------------------------------------------------------
  // The checks, in the order of the source
  // ----------------------------------------------------------------------

  method CountPlaces(places: seq<Place>) returns (counts: map<TypeKey, nat>)
    ensures forall key :: key in counts <==> Count(places, |places|, key) > 0
    ensures forall key :: key in counts ==> counts[key] == Count(places, |places|, key)
  {
    counts := map[];
    for i := 0 to |places|
      invariant forall key :: key in counts <==> Count(places, i, key) > 0
      invariant forall key :: key in counts ==> counts[key] == Count(places, i, key)
    {
      var key := (places[i].country, places[i].placeType);
      counts := counts[key := (if key in counts then counts[key] else 0) + 1];
    }
  }

  function CountIn(counts: map<TypeKey, nat>, key: TypeKey): nat { if key in counts then counts[key] else 0 }

  method CheckWilayas(places: seq<Place>) returns (ok: bool)
    ensures ok <==> NewWilayas(places)
  {
    var codes := set p | p in places && p.source == "algeria-wilaya" :: p.sourceId;
    ok := true;
    for n: nat := 59 to 70
      invariant ok <==> forall k: nat :: 59 <= k < n ==> HasWilaya(places, k)
    {
      CodeListed(places, codes, n);
      ok := ok && Digits(n) in codes;
    }
  }

  lemma CodeListed(places: seq<Place>, codes: set<string>, n: nat)
    requires codes == set p | p in places && p.source == "algeria-wilaya" :: p.sourceId
    ensures Digits(n) in codes <==> HasWilaya(places, n)
  {
  }

  method CheckParent(places: seq<Place>, p: Place) returns (ok: bool)
    requires UniqueKeys(places)
    ensures ok <==> ParentOk(places, p)
  {
    if p.parentId.Some? {
      var parent := LastAt(places, ParentKey(p));
      forall i | 0 <= i < |places| && KeyOfPlace(places[i]) == ParentKey(p)
        ensures parent == Some(places[i])
      {
        LookupIff(places, ParentKey(p), i);
      }
      if parent.None? || parent.value.country != p.country {
        return false;
      }
    }
    return !(p.country == "DZ" && p.placeType == "locality") || p.parentSource == Some("algeria-wilaya");
  }

  method CheckAirport(places: seq<Place>, p: Place) returns (ok: bool)
    requires UniqueKeys(places)
    ensures ok <==> AirportOk(places, p)
  {
    var key := RowKeyOf(p.parentSource, None, p.parentId);
    var parent := LastAt(places, key);
    forall i | 0 <= i < |places| && KeyOfPlace(places[i]) == key
      ensures parent == Some(places[i])
    {
      LookupIff(places, key, i);
    }
    if Blank(p.latitude) || Blank(p.longitude) || p.country !in COUNTRIES || p.airportType !in AIRPORT_TYPES {
      return false;
    }
    if !p.passengerUse || !p.scheduled {
      return false;
    }
    return parent.Some? && parent.value.placeType == "admin_region";
  }

  method CheckPlaces(places: seq<Place>, c: Coverage) returns (ok: bool)
    ensures ok <==> PlacesOk(places, c)
  {
    DistinctIff(PlaceIds(places));
    IdsUnique(places);
    if |PlaceIds(places)| != |SetOf(PlaceIds(places))| {
      return false;
    }
    var counts := CountPlaces(places);
    if exists key :: key in c.counts && (key !in counts || counts[key] != c.counts[key]) {
      return false;
    }
    if exists code :: code in c.airports && CountIn(counts, (code, "airport")) != c.airports[code] {
      return false;
    }
    ok := CheckWilayas(places);
    if !ok {
      return;
    }
    ok := CheckEachPlace(places);
  }

  method CheckEachPlace(places: seq<Place>) returns (ok: bool)
    requires UniqueKeys(places)
    ensures ok <==>
      && (forall i :: 0 <= i < |places| ==> ParentOk(places, places[i]))
      && (exists i :: 0 <= i < |places| && places[i].placeType == "airport")
      && (forall i :: 0 <= i < |places| && places[i].placeType == "airport" ==> AirportOk(places, places[i]))
  {
    for i := 0 to |places|
      invariant forall k :: 0 <= k < i ==> ParentOk(places, places[k])
    {
      ok := CheckParent(places, places[i]);
      if !ok {
        return;
      }
    }
    var some := false;
    for i := 0 to |places|
      invariant some <==> exists k :: 0 <= k < i && places[k].placeType == "airport"
      invariant forall k :: 0 <= k < i && places[k].placeType == "airport" ==> AirportOk(places, places[k])
    {
      if places[i].placeType == "airport" {
        some := true;
        ok := CheckAirport(places, places[i]);
        if !ok {
          return;
        }
      }
    }
    ok := some;
  }

  method CheckNames(places: seq<Place>, names: seq<AlternateName>) returns (ok: bool)
    ensures ok <==> NamesOk(places, names)
  {
    DistinctIff(NameIds(names));
    if |NameIds(names)| != |SetOf(NameIds(names))| {
      return false;
    }
    for i := 0 to |names|
      invariant forall k :: 0 <= k < i ==> NameOk(places, names[k])
    {
      if LastAt(places, AlternatePlaceKey(names[i])).None? {
        return false;
      }
    }
    return true;
  }

  method CheckMapping(places: seq<Place>, m: Mapping) returns (ok: bool)
    requires UniqueKeys(places)
    ensures ok <==> MappingOk(places, m)
  {
    var airport, locality := LastAt(places, AirportKey(m)), LastAt(places, LocalityKey(m));
    forall i, k | 0 <= i < |places| && 0 <= k < |places| && Joins(places[i], places[k], m)
      ensures airport == Some(places[i]) && locality == Some(places[k])
    {
      LookupIff(places, AirportKey(m), i);
      LookupIff(places, LocalityKey(m), k);
    }
    if airport.None? || airport.value.placeType != "airport" {
      return false;
    }
    if locality.None? || locality.value.placeType != "locality" || locality.value.country != airport.value.country {
      return false;
    }
    assert Joins(airport.value, locality.value, m);
    return m.relationship.None? || m.relationship.value in {"served", "physical"};
  }

  method CheckMappings(places: seq<Place>, mappings: seq<Mapping>) returns (ok: bool)
    requires UniqueKeys(places)
    ensures ok <==> MappingsOk(places, mappings)
  {
    DistinctIff(MappingIds(mappings));
    if |MappingIds(mappings)| != |SetOf(MappingIds(mappings))| {
      return false;
    }
    for i := 0 to |mappings|
      invariant forall k :: 0 <= k < i ==> MappingOk(places, mappings[k])
    {
      ok := CheckMapping(places, mappings[i]);
      if !ok {
        return;
      }
    }
    ok := CheckPrimaries(places, mappings);
  }

  /** The count of active primary served rows per airport. */
  method CountPrimaries(mappings: seq<Mapping>) returns (counts: map<RowKey, nat>)
    ensures forall key :: key in counts <==> M.Primaries(mappings, key) > 0
    ensures forall key :: key in counts ==> counts[key] == M.Primaries(mappings, key)
  {
    counts := map[];
    for i := 0 to |mappings|
      invariant forall key :: key in counts <==> M.Primaries(mappings[..i], key) > 0
      invariant forall key :: key in counts ==> counts[key] == M.Primaries(mappings[..i], key)
    {
      assert mappings[..i + 1][..i] == mappings[..i];
      var m := mappings[i];
      if Served(m) && m.isPrimary && m.active {
        counts := counts[AirportKey(m) := (if AirportKey(m) in counts then counts[AirportKey(m)] else 0) + 1];
      }
    }
    assert mappings[..|mappings|] == mappings;
  }

  /** A key that is counted belongs to a row. */
  lemma {:induction false} CountedRow(mappings: seq<Mapping>, key: RowKey)
    requires M.Primaries(mappings, key) > 0
    ensures exists i :: 0 <= i < |mappings| && AirportKey(mappings[i]) == key
    decreases |mappings|
  {
    var n := |mappings| - 1;
    if M.PrimaryFor(mappings[n], key) {
      assert AirportKey(mappings[n]) == key;
    } else {
      CountedRow(mappings[..n], key);
      var i :| 0 <= i < n && AirportKey(mappings[..n][i]) == key;
      assert AirportKey(mappings[i]) == key;
    }
  }

  /** No counted key may have more than one primary row, and every airport's key has to be counted. */
  method CheckPrimaries(places: seq<Place>, mappings: seq<Mapping>) returns (ok: bool)
    requires forall i :: 0 <= i < |mappings| ==> MappingOk(places, mappings[i])
    ensures ok <==> forall i :: 0 <= i < |places| && places[i].placeType == "airport" ==>
      M.Primaries(mappings, KeyOfPlace(places[i])) == 1
  {
    var counts := CountPrimaries(mappings);
    if exists key :: key in counts && counts[key] != 1 {
      var key :| key in counts && counts[key] != 1;
      CountedRow(mappings, key);
      return false;
    }
    for i := 0 to |places|
      invariant forall k :: 0 <= k < i && places[k].placeType == "airport" ==>
        M.Primaries(mappings, KeyOfPlace(places[k])) == 1
    {
      if places[i].placeType == "airport" && KeyOfPlace(places[i]) !in counts {
        return false;
      }
    }
    return true;
  }

  /** `validate_manifest`: it returns without raising exactly for a valid manifest. */
  method ValidateManifest(m: Manifest, c: Coverage) returns (ok: bool)
    ensures ok <==> ValidManifest(m.places, m.alternateNames, m.mappings, c)
  {
    ok := CheckPlaces(m.places, c);
    if !ok {
      return;
    }
    IdsUnique(m.places);
    ok := CheckNames(m.places, m.alternateNames);
    if !ok {
      return;
    }
    ok := CheckMappings(m.places, m.mappings);
  }

  // ----------------------------------------------------------------------
  // The completed mappings under validation
  // ----------------------------------------------------------------------

  lemma SamePlace(places: seq<Place>, p: Place, i: nat)
    requires UniqueKeys(places) && p in places && i < |places| && KeyOfPlace(places[i]) == KeyOfPlace(p)
    ensures places[i] == p
  {
  }

  /** A derived row passes its check exactly when airport and locality are of one country, and only a
    * reviewed override can name a locality of another. */
  lemma DerivedRowOk(places: seq<Place>, airport: Place, overrides: map<string, Key>, nameKey: M.NameKey)
    requires UniqueKeys(places) && airport in OfType(places, "airport")
    requires M.LocalityFor(OfType(places, "locality"), airport, overrides, nameKey).Some?
    ensures var locality := M.LocalityFor(OfType(places, "locality"), airport, overrides, nameKey).value;
      && (MappingOk(places, M.Derived(airport, locality)) <==> airport.country == locality.country)
      && (airport.sourceId !in overrides ==> airport.country == locality.country)
  {
    var localities := OfType(places, "locality");
    var locality := M.LocalityFor(localities, airport, overrides, nameKey).value;
    M.LocalityForIff(localities, airport, overrides, nameKey, locality);
    assert locality in localities;
    var row := M.Derived(airport, locality);
    if MappingOk(places, row) {
      var i, k :| 0 <= i < |places| && 0 <= k < |places| && Joins(places[i], places[k], row);
      SamePlace(places, airport, i);
      SamePlace(places, locality, k);
    }
    if airport.country == locality.country {
      var i :| 0 <= i < |places| && places[i] == airport;
      var k :| 0 <= k < |places| && places[k] == locality;
      assert Joins(places[i], places[k], row);
    }
  }

  function ReviewId(airport: Place): (Option<string>, Option<string>) {
    (Some(REVIEW_SOURCE), Some(M.DerivedId(airport)))
  }

  lemma DerivedIdsDiffer(a: Place, b: Place)
    ensures M.DerivedId(a) == M.DerivedId(b) <==> a.sourceId == b.sourceId
  {
    var prefix, suffix := "ourairports:", ":served-derived";
    if M.DerivedId(a) == M.DerivedId(b) {
      var x, y := prefix + a.sourceId + suffix, prefix + b.sourceId + suffix;
      assert x == y && |a.sourceId| == |b.sourceId|;
      assert x[|prefix|..|prefix| + |a.sourceId|] == a.sourceId;
      assert y[|prefix|..|prefix| + |b.sourceId|] == b.sourceId;
    }
  }

  /** The identities of the derived rows repeat neither each other nor a supplied one. */
  ghost predicate NewIds(uncovered: seq<Place>, supplied: seq<Mapping>) {
    && (forall i, k :: 0 <= i < k < |uncovered| ==> uncovered[i].sourceId != uncovered[k].sourceId)
    && (forall i, k :: 0 <= i < |uncovered| && 0 <= k < |supplied| ==>
        MappingIds(supplied)[k] != ReviewId(uncovered[i]))
  }

  ghost predicate RowsFor(added: seq<Mapping>, uncovered: seq<Place>) {
    |added| == |uncovered| && forall k :: 0 <= k < |added| ==> MappingIds(added)[k] == ReviewId(uncovered[k])
  }

  lemma IdsDistinctIff(supplied: seq<Mapping>, added: seq<Mapping>, uncovered: seq<Place>)
    requires RowsFor(added, uncovered)
    ensures Distinct(MappingIds(supplied + added)) <==> Distinct(MappingIds(supplied)) && NewIds(uncovered, supplied)
  {
    var all, n := MappingIds(supplied + added), |supplied|;
    assert forall k :: 0 <= k < n ==> all[k] == MappingIds(supplied)[k];
    forall k | 0 <= k < |added|
      ensures all[n + k] == ReviewId(uncovered[k])
    {
      assert MappingIds(added)[k] == ReviewId(uncovered[k]);
    }
    if Distinct(all) {
      forall i, k | 0 <= i < k < |uncovered|
        ensures uncovered[i].sourceId != uncovered[k].sourceId
      {
        assert all[n + i] != all[n + k];
        DerivedIdsDiffer(uncovered[i], uncovered[k]);
      }
      forall i, k | 0 <= i < |uncovered| && 0 <= k < n
        ensures MappingIds(supplied)[k] != ReviewId(uncovered[i])
      {
        assert all[k] != all[n + i];
      }
    }
    if Distinct(MappingIds(supplied)) && NewIds(uncovered, supplied) {
      forall i, k | 0 <= i < k < |all|
        ensures all[i] != all[k]
      {
        if k >= n {
          assert all[n + (k - n)] == ReviewId(uncovered[k - n]);
        }
        if i >= n {
          assert all[n + (i - n)] == ReviewId(uncovered[i - n]);
          DerivedIdsDiffer(uncovered[i - n], uncovered[k - n]);
        }
      }
    }
  }

  /** The exactly-one check on the completed rows passes exactly when every airport that the supplied rows cover
    * has one active primary served row among them. */
  lemma PrimariesPassIff(places: seq<Place>, supplied: seq<Mapping>, overrides: map<string, Key>, nameKey: M.NameKey)
    requires UniqueKeys(places)
    requires M.Added(OfType(places, "airport"), OfType(places, "locality"), supplied, overrides, nameKey).Some?
    ensures var airports, localities := OfType(places, "airport"), OfType(places, "locality");
      var added := M.Added(airports, localities, supplied, overrides, nameKey).value;
      (forall i :: 0 <= i < |places| && places[i].placeType == "airport" ==>
         M.Primaries(supplied + added, KeyOfPlace(places[i])) == 1) <==>
      (forall i :: 0 <= i < |places| && places[i].placeType == "airport" && M.Covered(supplied, places[i]) ==>
         M.Primaries(supplied, KeyOfPlace(places[i])) == 1)
  {
    var airports := OfType(places, "airport");
    forall i | 0 <= i < |places| && places[i].placeType == "airport"
      ensures var added := M.Added(airports, OfType(places, "locality"), supplied, overrides, nameKey).value;
        M.Primaries(supplied + added, KeyOfPlace(places[i])) == 1 <==>
          (M.Covered(supplied, places[i]) ==> M.Primaries(supplied, KeyOfPlace(places[i])) == 1)
    {
      assert places[i] in airports;
      M.ExactlyOneIff(airports, OfType(places, "locality"), supplied, overrides, nameKey, places[i]);
      M.ListedOnce(places, "airport", KeyOfPlace(places[i]));
    }
  }

  /** Derivation over supplied rows that are active and at most one per airport leaves nothing for the
    * exactly-one check to find. */
  lemma DerivedPassesPrimaries(places: seq<Place>, supplied: seq<Mapping>, overrides: map<string, Key>,
                               nameKey: M.NameKey)
    requires UniqueKeys(places)
    requires forall k :: 0 <= k < |supplied| && Served(supplied[k]) && supplied[k].isPrimary ==> supplied[k].active
    requires forall a :: a in OfType(places, "airport") ==> M.Primaries(supplied, KeyOfPlace(a)) <= 1
    requires M.Added(OfType(places, "airport"), OfType(places, "locality"), supplied, overrides, nameKey).Some?
    ensures var airports, localities := OfType(places, "airport"), OfType(places, "locality");
      var added := M.Added(airports, localities, supplied, overrides, nameKey).value;
      forall i :: 0 <= i < |places| && places[i].placeType == "airport" ==>
        M.Primaries(supplied + added, KeyOfPlace(places[i])) == 1
  {
    forall i | 0 <= i < |places| && places[i].placeType == "airport" && M.Covered(supplied, places[i])
      ensures M.Primaries(supplied, KeyOfPlace(places[i])) == 1
    {
      assert places[i] in OfType(places, "airport");
      M.CoveredCounts(supplied, places[i]);
    }
    PrimariesPassIff(places, supplied, overrides, nameKey);
  }

  /** An uncovered airport and the locality found for it are of one country. */
  ghost predicate SameCountry(places: seq<Place>, airport: Place, overrides: map<string, Key>, nameKey: M.NameKey) {
    var locality := M.LocalityFor(OfType(places, "locality"), airport, overrides, nameKey);
    locality.Some? && locality.value.country == airport.country
  }

  lemma AddedRowsOkIff(places: seq<Place>, supplied: seq<Mapping>, added: seq<Mapping>, overrides: map<string, Key>,
                       nameKey: M.NameKey)
    requires UniqueKeys(places)
    requires M.Added(OfType(places, "airport"), OfType(places, "locality"), supplied, overrides, nameKey) == Some(added)
    ensures var uncovered := M.Uncovered(OfType(places, "airport"), supplied);
      && RowsFor(added, uncovered)
      && ((forall k :: 0 <= k < |added| ==> MappingOk(places, added[k])) <==>
          (forall k :: 0 <= k < |uncovered| ==> SameCountry(places, uncovered[k], overrides, nameKey)))
  {
    var airports, localities := OfType(places, "airport"), OfType(places, "locality");
    var uncovered := M.Uncovered(airports, supplied);
    M.AddedAre(airports, localities, supplied, overrides, nameKey);
    forall k | 0 <= k < |added|
      ensures MappingIds(added)[k] == ReviewId(uncovered[k])
      ensures MappingOk(places, added[k]) <==> SameCountry(places, uncovered[k], overrides, nameKey)
    {
      DerivedRowOk(places, uncovered[k], overrides, nameKey);
    }
  }

  /** What has to be supplied for the completed mappings to be valid: valid rows with identities of their own, one
    * active primary served row for every airport that they cover, and a locality of its country for every other. */
  lemma CompletedOkIff(places: seq<Place>, supplied: seq<Mapping>, overrides: map<string, Key>, nameKey: M.NameKey)
    requires UniqueKeys(places)
    requires M.Added(OfType(places, "airport"), OfType(places, "locality"), supplied, overrides, nameKey).Some?
    ensures var airports, localities := OfType(places, "airport"), OfType(places, "locality");
      var added := M.Added(airports, localities, supplied, overrides, nameKey).value;
      var uncovered := M.Uncovered(airports, supplied);
      MappingsOk(places, supplied + added) <==>
        && Distinct(MappingIds(supplied)) && NewIds(uncovered, supplied)
        && (forall k :: 0 <= k < |supplied| ==> MappingOk(places, supplied[k]))
        && (forall k :: 0 <= k < |uncovered| ==> SameCountry(places, uncovered[k], overrides, nameKey))
        && (forall i :: 0 <= i < |places| && places[i].placeType == "airport" && M.Covered(supplied, places[i]) ==>
              M.Primaries(supplied, KeyOfPlace(places[i])) == 1)
  {
    var added := M.Added(OfType(places, "airport"), OfType(places, "locality"), supplied, overrides, nameKey).value;
    AddedRowsOkIff(places, supplied, added, overrides, nameKey);
    IdsDistinctIff(supplied, added, M.Uncovered(OfType(places, "airport"), supplied));
    PrimariesPassIff(places, supplied, overrides, nameKey);
    RowsJoin(places, supplied, added);
  }

  lemma RowsJoin(places: seq<Place>, a: seq<Mapping>, b: seq<Mapping>)
    ensures (forall k :: 0 <= k < |a + b| ==> MappingOk(places, (a + b)[k])) <==>
      (forall k :: 0 <= k < |a| ==> MappingOk(places, a[k])) && (forall k :: 0 <= k < |b| ==> MappingOk(places, b[k]))
  {
    assert forall k :: 0 <= k < |a| ==> (a + b)[k] == a[k];
    assert forall k :: 0 <= k < |b| ==> (a + b)[|a| + k] == b[k];
  }

  /** A switched-off primary row, in order by itself, covers its airport: nothing is derived for it, and the
    * exactly-one check fails. */
  lemma SwitchedOffRow(nameKey: M.NameKey) returns (places: seq<Place>, supplied: seq<Mapping>)
    ensures UniqueKeys(places) && places != [] && places[0].placeType == "airport"
    ensures M.Added(OfType(places, "airport"), OfType(places, "locality"), supplied, map[], nameKey) == Some([])
    ensures Distinct(MappingIds(supplied)) && forall k :: 0 <= k < |supplied| ==> MappingOk(places, supplied[k])
    ensures M.Primaries(supplied, KeyOfPlace(places[0])) == 0
  {
    var airport := Place("o", "1", "DZ", "airport", "n", None, None, None, None, "", true, true, "");
    var locality := Place("l", "1", "DZ", "locality", "n", None, None, None, None, "", true, true, "");
    var one := Some("1");
    var row := Mapping(Some("m"), one, Some("o"), one, Some("l"), one, Some("served"), true, false, []);
    places, supplied := [airport, locality], [row];
    OneAirport(airport, locality);
    NothingAdded(airport, OfType(places, "locality"), row, nameKey);
    assert Joins(places[0], places[1], row);
  }

  lemma OneAirport(airport: Place, locality: Place)
    requires airport.placeType == "airport" && locality.placeType == "locality"
    ensures OfType([airport, locality], "airport") == [airport]
  {
    assert [airport, locality][..1] == [airport] && [airport][..0] == [];
    assert OfType([airport], "airport") == [airport];
  }

  lemma NothingAdded(airport: Place, localities: seq<Place>, row: Mapping, nameKey: M.NameKey)
    requires Served(row) && row.isPrimary && !row.active && AirportKey(row) == KeyOfPlace(airport)
    ensures M.Added([airport], localities, [row], map[], nameKey) == Some([])
    ensures M.Primaries([row], KeyOfPlace(airport)) == 0
  {
    assert [airport][..0] == [] && [row][..0] == [];
    assert M.Covered([row], airport) by {
      assert [row][0] == row;
    }
    assert M.Added([], localities, [row], map[], nameKey) == Some([]);
  }

  // ----------------------------------------------------------------------
  // The launch coverage
  // ----------------------------------------------------------------------

  lemma {:induction false} AirportsByCountry(places: seq<Place>, n: nat)
    requires n <= |places| && forall i :: 0 <= i < n && places[i].placeType == "airport" ==>
      places[i].country in COUNTRIES
    ensures |OfType(places[..n], "airport")|
         == Count(places, n, ("DZ", "airport")) + Count(places, n, ("FR", "airport"))
          + Count(places, n, ("ES", "airport")) + Count(places, n, ("DE", "airport"))
  {
    if n > 0 {
      AirportsByCountry(places, n - 1);
      assert places[..n][..n - 1] == places[..n - 1];
    }
  }

  /** Places in order under the launch coverage hold exactly 161 airports, whatever order they come in. */
  lemma LaunchAirports(places: seq<Place>)
    requires PlacesOk(places, LAUNCH)
    ensures |OfType(places, "airport")| == 161
  {
    forall i | 0 <= i < |places| && places[i].placeType == "airport"
      ensures places[i].country in COUNTRIES
    {
      assert AirportOk(places, places[i]);
    }
    AirportsByCountry(places, |places|);
    assert places[..|places|] == places;
    assert ("DZ" in LAUNCH.airports && "FR" in LAUNCH.airports) && ("ES" in LAUNCH.airports && "DE" in LAUNCH.airports);
  }
}
