/** Completing the airport mappings: one primary served locality per airport. */
module GeographyMappings {
  import opened Wrappers
  import opened Geography

  type NameKey = string -> string

  /** The supplied rows that make an airport count as covered; a switched-off row counts too. */
  ghost predicate Covered(supplied: seq<Mapping>, airport: Place) {
    exists i :: 0 <= i < |supplied| && Served(supplied[i]) && supplied[i].isPrimary &&
      AirportKey(supplied[i]) == KeyOfPlace(airport)
  }

  predicate IsCandidate(locality: Place, airport: Place, nameKey: NameKey) {
    var hint := nameKey(airport.hint);
    && locality.country == airport.country
    && (nameKey(locality.name) == hint || hint + " " <= nameKey(locality.name))
  }

  function Candidates(localities: seq<Place>, airport: Place, nameKey: NameKey): seq<Place> {
    if localities == [] then []
    else
      var before := Candidates(localities[..|localities| - 1], airport, nameKey);
      var last := localities[|localities| - 1];
      if IsCandidate(last, airport, nameKey) then before + [last] else before
  }

  /** The reviewed override, or else the one locality whose name the airport's municipality hint starts. */
  function LocalityFor(localities: seq<Place>, airport: Place, overrides: map<string, Key>, nameKey: NameKey)
    : Option<Place>
  {
    if airport.sourceId in overrides then
      var key := overrides[airport.sourceId];
      LastAt(localities, (Some(key.0), key.1))
    else
      var candidates := Candidates(localities, airport, nameKey);
      if |candidates| == 1 then Some(candidates[0]) else None
  }

  function DerivedId(airport: Place): string {
    "ourairports:" + airport.sourceId + ":served-derived"
  }

  function Derived(airport: Place, locality: Place): Mapping {
    Mapping(
      Some(REVIEW_SOURCE), Some(DerivedId(airport)),
      Some(airport.source), Some(airport.sourceId), Some(locality.source), Some(locality.sourceId),
      Some("served"), true, true, [])
  }

  /** The rows that the pass appends, `None` where an uncovered airport has no locality. */
  ghost function Added(airports: seq<Place>, localities: seq<Place>, supplied: seq<Mapping>,
                       overrides: map<string, Key>, nameKey: NameKey): Option<seq<Mapping>>
  {
    if airports == [] then Some([])
    else
      var before := Added(airports[..|airports| - 1], localities, supplied, overrides, nameKey);
      var airport := airports[|airports| - 1];
      if before.None? || Covered(supplied, airport) then before
      else
        var locality := LocalityFor(localities, airport, overrides, nameKey);
        if locality.None? then None else Some(before.value + [Derived(airport, locality.value)])
  }

  /** What one more airport adds. */
  ghost function AddedNext(before: seq<Mapping>, airport: Place, localities: seq<Place>, supplied: seq<Mapping>,
                           overrides: map<string, Key>, nameKey: NameKey): Option<seq<Mapping>>
  {
    if Covered(supplied, airport) then Some(before)
    else
      var locality := LocalityFor(localities, airport, overrides, nameKey);
      if locality.None? then None else Some(before + [Derived(airport, locality.value)])
  }

  lemma AddedStep(airports: seq<Place>, i: nat, localities: seq<Place>, supplied: seq<Mapping>,
                  overrides: map<string, Key>, nameKey: NameKey)
    requires i < |airports| && Added(airports[..i], localities, supplied, overrides, nameKey).Some?
    ensures Added(airports[..i + 1], localities, supplied, overrides, nameKey) ==
      AddedNext(Added(airports[..i], localities, supplied, overrides, nameKey).value, airports[i], localities, supplied,
                overrides, nameKey)
  {
    assert airports[..i + 1][..i] == airports[..i];
  }

  /** `derive_airport_mappings`; not `ok` is its ValueError. */
  method DeriveAirportMappings(m: Manifest, overrides: map<string, Key>, nameKey: NameKey) returns (ok: bool)
    modifies m`mappings
    ensures old(m.mappings) <= m.mappings
    ensures var airports, localities := OfType(m.places, "airport"), OfType(m.places, "locality");
      var added := Added(airports, localities, old(m.mappings), overrides, nameKey);
      && (ok <==> added.Some?)
      && (ok ==> m.mappings == old(m.mappings) + added.value)
  {
    ghost var supplied := m.mappings;
    var localities := OfType(m.places, "locality");
    var airports := OfType(m.places, "airport");
    var covered := set row | row in m.mappings && Served(row) && row.isPrimary :: AirportKey(row);
    ghost var added: seq<Mapping> := [];
    for i := 0 to |airports|
      invariant Added(airports[..i], localities, supplied, overrides, nameKey) == Some(added)
      invariant m.mappings == supplied + added
    {
      var airport := airports[i];
      AddedStep(airports, i, localities, supplied, overrides, nameKey);
      CoveredByKey(supplied, covered, airport);
      if KeyOfPlace(airport) !in covered {
        var locality := LocalityFor(localities, airport, overrides, nameKey);
        if locality.None? {
          AddedStops(airports, i + 1, localities, supplied, overrides, nameKey);
          return false;
        }
        var row := Derived(airport, locality.value);
        m.mappings := m.mappings + [row];
        added := added + [row];
      }
    }
    assert airports[..|airports|] == airports;
    return true;
  }

  lemma CoveredByKey(supplied: seq<Mapping>, covered: set<RowKey>, airport: Place)
    requires covered == set row | row in supplied && Served(row) && row.isPrimary :: AirportKey(row)
    ensures KeyOfPlace(airport) in covered <==> Covered(supplied, airport)
  {
  }

  lemma {:induction false} AddedStops(airports: seq<Place>, i: nat, localities: seq<Place>, supplied: seq<Mapping>,
                                      overrides: map<string, Key>, nameKey: NameKey)
    requires i <= |airports| && Added(airports[..i], localities, supplied, overrides, nameKey).None?
    ensures Added(airports, localities, supplied, overrides, nameKey).None?
    decreases |airports|
  {
    if i == |airports| {
      assert airports[..i] == airports;
    } else {
      var shorter := airports[..|airports| - 1];
      assert shorter[..i] == airports[..i];
      AddedStops(shorter, i, localities, supplied, overrides, nameKey);
    }
  }

  // ----------------------------------------------------------------------
  // What the completed mappings hold
  // ----------------------------------------------------------------------

  predicate PrimaryFor(m: Mapping, key: RowKey) {
    Served(m) && m.isPrimary && m.active && AirportKey(m) == key
  }

  /** How many active primary served rows name the airport. */
  function Primaries(rows: seq<Mapping>, key: RowKey): nat {
    if rows == [] then 0
    else Primaries(rows[..|rows| - 1], key) + if PrimaryFor(rows[|rows| - 1], key) then 1 else 0
  }

  function Listed(airports: seq<Place>, key: RowKey): nat {
    if airports == [] then 0
    else Listed(airports[..|airports| - 1], key) + if KeyOfPlace(airports[|airports| - 1]) == key then 1 else 0
  }

  lemma {:induction false} PrimariesJoin(a: seq<Mapping>, b: seq<Mapping>, key: RowKey)
    ensures Primaries(a + b, key) == Primaries(a, key) + Primaries(b, key)
    decreases |b|
  {
    if b == [] {
      assert a + b == a;
    } else {
      assert (a + b)[..|a + b| - 1] == a + b[..|b| - 1];
      PrimariesJoin(a, b[..|b| - 1], key);
    }
  }

  /** The pass succeeds exactly when every airport is covered or has its locality. */
  lemma {:induction false} SucceedsIff(airports: seq<Place>, localities: seq<Place>, supplied: seq<Mapping>,
                                       overrides: map<string, Key>, nameKey: NameKey)
    ensures Added(airports, localities, supplied, overrides, nameKey).Some? <==>
      forall i :: 0 <= i < |airports| ==>
        Covered(supplied, airports[i]) || LocalityFor(localities, airports[i], overrides, nameKey).Some?
    decreases |airports|
  {
    if airports != [] {
      var shorter := airports[..|airports| - 1];
      SucceedsIff(shorter, localities, supplied, overrides, nameKey);
      assert forall i :: 0 <= i < |shorter| ==> shorter[i] == airports[i];
    }
  }

  /** An uncovered airport gets one active primary served row each time it is listed, a covered one none. */
  lemma {:induction false} AddedCounts(airports: seq<Place>, localities: seq<Place>, supplied: seq<Mapping>,
                                       overrides: map<string, Key>, nameKey: NameKey, airport: Place)
    requires Added(airports, localities, supplied, overrides, nameKey).Some?
    ensures Primaries(Added(airports, localities, supplied, overrides, nameKey).value, KeyOfPlace(airport)) ==
      if Covered(supplied, airport) then 0 else Listed(airports, KeyOfPlace(airport))
    decreases |airports|
  {
    if airports != [] {
      var shorter := airports[..|airports| - 1];
      var last := airports[|airports| - 1];
      AddedCounts(shorter, localities, supplied, overrides, nameKey, airport);
      SameCover(supplied, last, airport);
      var rows := Added(airports, localities, supplied, overrides, nameKey).value;
      if !Covered(supplied, last) {
        var before := Added(shorter, localities, supplied, overrides, nameKey).value;
        assert rows[..|rows| - 1] == before;
      }
    }
  }

  lemma SameCover(supplied: seq<Mapping>, a: Place, b: Place)
    ensures KeyOfPlace(a) == KeyOfPlace(b) ==> (Covered(supplied, a) <==> Covered(supplied, b))
  {
  }

  lemma {:induction false} UncoveredCountsZero(supplied: seq<Mapping>, airport: Place)
    ensures !Covered(supplied, airport) ==> Primaries(supplied, KeyOfPlace(airport)) == 0
    decreases |supplied|
  {
    if supplied != [] && !Covered(supplied, airport) {
      var shorter := supplied[..|supplied| - 1];
      assert forall i :: 0 <= i < |shorter| ==> shorter[i] == supplied[i];
      UncoveredCountsZero(shorter, airport);
      assert !PrimaryFor(supplied[|supplied| - 1], KeyOfPlace(airport));
    }
  }

  /** After a successful pass a listed airport has exactly one active primary served row if and only if it was
    * covered with exactly one active row, or was not covered and is listed once. */
  lemma ExactlyOneIff(airports: seq<Place>, localities: seq<Place>, supplied: seq<Mapping>,
                      overrides: map<string, Key>, nameKey: NameKey, airport: Place)
    requires Added(airports, localities, supplied, overrides, nameKey).Some?
    ensures var rows := supplied + Added(airports, localities, supplied, overrides, nameKey).value;
      Primaries(rows, KeyOfPlace(airport)) == 1 <==>
        if Covered(supplied, airport) then Primaries(supplied, KeyOfPlace(airport)) == 1
        else Listed(airports, KeyOfPlace(airport)) == 1
  {
    var added := Added(airports, localities, supplied, overrides, nameKey).value;
    PrimariesJoin(supplied, added, KeyOfPlace(airport));
    AddedCounts(airports, localities, supplied, overrides, nameKey, airport);
    UncoveredCountsZero(supplied, airport);
  }

  lemma {:induction false} ListedOnce(places: seq<Place>, placeType: string, key: RowKey)
    requires UniqueKeys(places)
    ensures Listed(OfType(places, placeType), key) ==
      if exists p :: p in OfType(places, placeType) && KeyOfPlace(p) == key then 1 else 0
    decreases |places|
  {
    if places != [] {
      var shorter, last := places[..|places| - 1], places[|places| - 1];
      ListedOnce(shorter, placeType, key);
      if last.placeType == placeType {
        var before := OfType(shorter, placeType);
        assert OfType(places, placeType)[..|before|] == before;
        assert last in OfType(places, placeType);
        forall p | p in before
          ensures p in OfType(places, placeType) && KeyOfPlace(p) != KeyOfPlace(last)
        {
          assert p in shorter;
          var i :| 0 <= i < |shorter| && shorter[i] == p;
          assert PlaceKey(places[i]) != PlaceKey(last);
        }
      }
    }
  }

  lemma {:induction false} CoveredCounts(supplied: seq<Mapping>, airport: Place)
    requires forall i :: 0 <= i < |supplied| && Served(supplied[i]) && supplied[i].isPrimary ==> supplied[i].active
    requires Covered(supplied, airport)
    ensures Primaries(supplied, KeyOfPlace(airport)) >= 1
    decreases |supplied|
  {
    var shorter := supplied[..|supplied| - 1];
    if !PrimaryFor(supplied[|supplied| - 1], KeyOfPlace(airport)) {
      var i :| 0 <= i < |supplied| && Served(supplied[i]) && supplied[i].isPrimary &&
        AirportKey(supplied[i]) == KeyOfPlace(airport);
      assert shorter[i] == supplied[i];
      assert forall k :: 0 <= k < |shorter| ==> shorter[k] == supplied[k];
      CoveredCounts(shorter, airport);
    }
  }

  /** With unique place keys and supplied primary rows that are active and at most one per airport, every
    * airport ends with exactly one active primary served row. */
  lemma ExactlyOnePrimary(places: seq<Place>, supplied: seq<Mapping>, overrides: map<string, Key>, nameKey: NameKey,
                          airport: Place)
    requires UniqueKeys(places) && airport in OfType(places, "airport")
    requires forall i :: 0 <= i < |supplied| && Served(supplied[i]) && supplied[i].isPrimary ==> supplied[i].active
    requires forall a :: a in OfType(places, "airport") ==> Primaries(supplied, KeyOfPlace(a)) <= 1
    requires Added(OfType(places, "airport"), OfType(places, "locality"), supplied, overrides, nameKey).Some?
    ensures var airports, localities := OfType(places, "airport"), OfType(places, "locality");
      var added := Added(airports, localities, supplied, overrides, nameKey).value;
      Primaries(supplied + added, KeyOfPlace(airport)) == 1
  {
    ExactlyOneIff(OfType(places, "airport"), OfType(places, "locality"), supplied, overrides, nameKey, airport);
    ListedOnce(places, "airport", KeyOfPlace(airport));
    if Covered(supplied, airport) {
      CoveredCounts(supplied, airport);
    }
  }

  /** The row derived for an airport and its locality, field by field. */
  lemma DerivedFields(airport: Place, locality: Place)
    ensures var row := Derived(airport, locality);
      && row.airportSource == Some(airport.source) && row.airportId == Some(airport.sourceId)
      && row.localitySource == Some(locality.source) && row.localityId == Some(locality.sourceId)
      && row.relationship == Some("served") && row.isPrimary && row.active && row.aliases == []
      && row.source == Some("shiptrip-airport-locality-review")
      && row.sourceId == Some("ourairports:" + airport.sourceId + ":served-derived")
  {
  }

  /** The airports that the pass derives a row for, in order. */
  ghost function Uncovered(airports: seq<Place>, supplied: seq<Mapping>): (us: seq<Place>)
    ensures forall u :: u in us ==> u in airports
  {
    if airports == [] then []
    else
      var before := Uncovered(airports[..|airports| - 1], supplied);
      if Covered(supplied, airports[|airports| - 1]) then before else before + [airports[|airports| - 1]]
  }

  /** The added rows, one for each uncovered airport, in order. */
  lemma {:induction false} AddedAre(airports: seq<Place>, localities: seq<Place>, supplied: seq<Mapping>,
                                    overrides: map<string, Key>, nameKey: NameKey)
    requires Added(airports, localities, supplied, overrides, nameKey).Some?
    ensures var added := Added(airports, localities, supplied, overrides, nameKey).value;
      var us := Uncovered(airports, supplied);
      && |added| == |us|
      && forall k :: 0 <= k < |us| ==>
           && LocalityFor(localities, us[k], overrides, nameKey).Some?
           && added[k] == Derived(us[k], LocalityFor(localities, us[k], overrides, nameKey).value)
    decreases |airports|
  {
    if airports != [] {
      AddedAre(airports[..|airports| - 1], localities, supplied, overrides, nameKey);
    }
  }

  // ----------------------------------------------------------------------
  // What each added row is, and the second pass
  // ----------------------------------------------------------------------

  ghost predicate AddedFor(row: Mapping, airports: seq<Place>, localities: seq<Place>, supplied: seq<Mapping>,
                           overrides: map<string, Key>, nameKey: NameKey)
  {
    exists i :: 0 <= i < |airports| && !Covered(supplied, airports[i]) &&
      LocalityFor(localities, airports[i], overrides, nameKey).Some? &&
      row == Derived(airports[i], LocalityFor(localities, airports[i], overrides, nameKey).value)
  }

  lemma AddedForMore(row: Mapping, some: seq<Place>, airports: seq<Place>, localities: seq<Place>,
                     supplied: seq<Mapping>, overrides: map<string, Key>, nameKey: NameKey)
    requires some <= airports && AddedFor(row, some, localities, supplied, overrides, nameKey)
    ensures AddedFor(row, airports, localities, supplied, overrides, nameKey)
  {
  }

  /** Each appended row is the served row of an uncovered airport and its locality. */
  lemma {:induction false} AddedRows(airports: seq<Place>, localities: seq<Place>, supplied: seq<Mapping>,
                                     overrides: map<string, Key>, nameKey: NameKey, k: nat)
    requires Added(airports, localities, supplied, overrides, nameKey).Some?
    requires k < |Added(airports, localities, supplied, overrides, nameKey).value|
    ensures AddedFor(Added(airports, localities, supplied, overrides, nameKey).value[k], airports, localities, supplied,
                     overrides, nameKey)
    decreases |airports|
  {
    var shorter := airports[..|airports| - 1];
    var before := Added(shorter, localities, supplied, overrides, nameKey).value;
    if k < |before| {
      AddedRows(shorter, localities, supplied, overrides, nameKey, k);
      AddedForMore(before[k], shorter, airports, localities, supplied, overrides, nameKey);
    } else {
      var last := airports[|airports| - 1];
      assert !Covered(supplied, last) && LocalityFor(localities, last, overrides, nameKey).Some?;
    }
  }

  lemma {:induction false} AllCovered(airports: seq<Place>, localities: seq<Place>, supplied: seq<Mapping>,
                                      overrides: map<string, Key>, nameKey: NameKey, i: nat)
    requires Added(airports, localities, supplied, overrides, nameKey).Some? && i < |airports|
    ensures Covered(supplied, airports[i]) ||
      Covered(Added(airports, localities, supplied, overrides, nameKey).value, airports[i])
    decreases |airports|
  {
    var shorter := airports[..|airports| - 1];
    var before := Added(shorter, localities, supplied, overrides, nameKey).value;
    var added := Added(airports, localities, supplied, overrides, nameKey).value;
    if i < |shorter| {
      AllCovered(shorter, localities, supplied, overrides, nameKey, i);
      StaysCovered(before, added, airports[i]);
    } else if !Covered(supplied, airports[i]) {
      assert AirportKey(added[|added| - 1]) == KeyOfPlace(airports[i]);
    }
  }

  lemma StaysCovered(rows: seq<Mapping>, more: seq<Mapping>, airport: Place)
    requires rows <= more
    ensures Covered(rows, airport) ==> Covered(more, airport)
  {
  }

  lemma {:induction false} AllCoveredAddsNothing(airports: seq<Place>, localities: seq<Place>, supplied: seq<Mapping>,
                                                 overrides: map<string, Key>, nameKey: NameKey)
    requires forall i :: 0 <= i < |airports| ==> Covered(supplied, airports[i])
    ensures Added(airports, localities, supplied, overrides, nameKey) == Some([])
    decreases |airports|
  {
    if airports != [] {
      var shorter := airports[..|airports| - 1];
      assert forall i :: 0 <= i < |shorter| ==> shorter[i] == airports[i];
      AllCoveredAddsNothing(shorter, localities, supplied, overrides, nameKey);
    }
  }

  /** A second pass over the completed manifest succeeds and appends nothing. */
  lemma SecondPassAddsNothing(airports: seq<Place>, localities: seq<Place>, supplied: seq<Mapping>,
                              overrides: map<string, Key>, nameKey: NameKey)
    requires Added(airports, localities, supplied, overrides, nameKey).Some?
    ensures var rows := supplied + Added(airports, localities, supplied, overrides, nameKey).value;
      Added(airports, localities, rows, overrides, nameKey) == Some([])
  {
    var added := Added(airports, localities, supplied, overrides, nameKey).value;
    var rows := supplied + added;
    forall i | 0 <= i < |airports|
      ensures Covered(rows, airports[i])
    {
      AllCovered(airports, localities, supplied, overrides, nameKey, i);
      StaysCovered(supplied, rows, airports[i]);
      if Covered(added, airports[i]) {
        var k :| 0 <= k < |added| && Served(added[k]) && added[k].isPrimary &&
          AirportKey(added[k]) == KeyOfPlace(airports[i]);
        assert rows[|supplied| + k] == added[k];
      }
    }
    AllCoveredAddsNothing(airports, localities, rows, overrides, nameKey);
  }

  /** The hint names the locality: it is its normalised name, or the words that name starts with. */
  predicate Names(hint: string, locality: Place, nameKey: NameKey) {
    var name := nameKey(locality.name);
    name == hint || (|name| > |hint| && name[..|hint|] == hint && name[|hint|] == ' ')
  }

  /** Locality `i` is the only one of the airport's country that its hint names. */
  ghost predicate OnlyNamed(localities: seq<Place>, i: nat, airport: Place, nameKey: NameKey) {
    && i < |localities|
    && localities[i].country == airport.country && Names(nameKey(airport.hint), localities[i], nameKey)
    && forall k {:trigger localities[k]} :: 0 <= k < |localities| && k != i ==>
        localities[k].country != airport.country || !Names(nameKey(airport.hint), localities[k], nameKey)
  }

  lemma CandidateIff(locality: Place, airport: Place, nameKey: NameKey)
    ensures IsCandidate(locality, airport, nameKey) <==>
      locality.country == airport.country && Names(nameKey(airport.hint), locality, nameKey)
  {
    var hint, name := nameKey(airport.hint), nameKey(locality.name);
    if hint + " " <= name {
      assert name[|hint|] == (hint + " ")[|hint|];
      assert name[..|hint|] == name[..|hint| + 1][..|hint|] == hint;
    }
    if |name| > |hint| && name[..|hint|] == hint && name[|hint|] == ' ' {
      assert name[..|hint| + 1] == name[..|hint|] + [name[|hint|]];
    }
  }

  /** Row `i` is the only candidate. */
  ghost predicate OnlyCandidate(localities: seq<Place>, i: nat, airport: Place, nameKey: NameKey) {
    && i < |localities|
    && IsCandidate(localities[i], airport, nameKey)
    && forall k {:trigger localities[k]} :: 0 <= k < |localities| && k != i ==>
        !IsCandidate(localities[k], airport, nameKey)
  }

  lemma OnlyNamedIff(localities: seq<Place>, i: nat, airport: Place, nameKey: NameKey)
    ensures OnlyNamed(localities, i, airport, nameKey) <==> OnlyCandidate(localities, i, airport, nameKey)
  {
    forall k {:trigger localities[k]} | 0 <= k < |localities|
      ensures IsCandidate(localities[k], airport, nameKey) <==>
        localities[k].country == airport.country && Names(nameKey(airport.hint), localities[k], nameKey)
    {
      CandidateIff(localities[k], airport, nameKey);
    }
  }

  lemma {:induction false} NoCandidate(localities: seq<Place>, airport: Place, nameKey: NameKey)
    ensures Candidates(localities, airport, nameKey) == [] <==>
      forall k {:trigger localities[k]} :: 0 <= k < |localities| ==> !IsCandidate(localities[k], airport, nameKey)
    decreases |localities|
  {
    if localities != [] {
      var shorter := localities[..|localities| - 1];
      NoCandidate(shorter, airport, nameKey);
      assert forall k :: 0 <= k < |shorter| ==> shorter[k] == localities[k];
    }
  }

  lemma {:induction false} OneCandidate(localities: seq<Place>, airport: Place, nameKey: NameKey) returns (i: nat)
    requires |Candidates(localities, airport, nameKey)| == 1
    ensures OnlyCandidate(localities, i, airport, nameKey)
    ensures Candidates(localities, airport, nameKey) == [localities[i]]
    decreases |localities|
  {
    var shorter, last := localities[..|localities| - 1], localities[|localities| - 1];
    if IsCandidate(last, airport, nameKey) {
      NoCandidate(shorter, airport, nameKey);
      i := |localities| - 1;
      forall k {:trigger localities[k]} | 0 <= k < |localities| && k != i
        ensures !IsCandidate(localities[k], airport, nameKey)
      {
        assert shorter[k] == localities[k];
      }
    } else {
      i := OneCandidate(shorter, airport, nameKey);
      forall k {:trigger localities[k]} | 0 <= k < |localities| && k != i
        ensures !IsCandidate(localities[k], airport, nameKey)
      {
        assert k < |shorter| ==> shorter[k] == localities[k];
      }
    }
  }

  lemma {:induction false} OnlyOne(localities: seq<Place>, i: nat, airport: Place, nameKey: NameKey)
    requires OnlyCandidate(localities, i, airport, nameKey)
    ensures Candidates(localities, airport, nameKey) == [localities[i]]
    decreases |localities|
  {
    var shorter := localities[..|localities| - 1];
    assert forall k :: 0 <= k < |shorter| ==> shorter[k] == localities[k];
    if i < |shorter| {
      OnlyOne(shorter, i, airport, nameKey);
    } else {
      NoCandidate(shorter, airport, nameKey);
    }
  }

  function OverrideKey(key: Key): RowKey { (Some(key.0), key.1) }

  /** The locality is the last one listed under the key of the reviewed override; without one, it is the only one of the
    * airport's country that the hint names. */
  lemma LocalityForIff(localities: seq<Place>, airport: Place, overrides: map<string, Key>, nameKey: NameKey, p: Place)
    ensures LocalityFor(localities, airport, overrides, nameKey) == Some(p) <==>
      if airport.sourceId in overrides then LastUnder(localities, OverrideKey(overrides[airport.sourceId]), p)
      else exists i: nat :: OnlyNamed(localities, i, airport, nameKey) && localities[i] == p
  {
    if airport.sourceId in overrides {
      LastAtIff(localities, OverrideKey(overrides[airport.sourceId]), p);
    } else {
      CandidateOnlyIff(localities, airport, overrides, nameKey, p);
      forall i: nat
        ensures OnlyNamed(localities, i, airport, nameKey) <==> OnlyCandidate(localities, i, airport, nameKey)
      {
        OnlyNamedIff(localities, i, airport, nameKey);
      }
    }
  }

  lemma CandidateOnlyIff(localities: seq<Place>, airport: Place, overrides: map<string, Key>, nameKey: NameKey,
                         p: Place)
    requires airport.sourceId !in overrides
    ensures LocalityFor(localities, airport, overrides, nameKey) == Some(p) <==>
      exists i: nat :: OnlyCandidate(localities, i, airport, nameKey) && localities[i] == p
  {
    if |Candidates(localities, airport, nameKey)| == 1 {
      var i := OneCandidate(localities, airport, nameKey);
    }
    forall i: nat | OnlyCandidate(localities, i, airport, nameKey)
      ensures Candidates(localities, airport, nameKey) == [localities[i]]
    {
      OnlyOne(localities, i, airport, nameKey);
    }
  }
}
