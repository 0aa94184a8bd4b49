/** Projecting reviewed aliases of the served localities onto alternate names. */
module GeographyAliases {
  import opened Wrappers
  import opened Decimal
  import opened Geography

  /** Name normalisation, case folding and stripping; folding leaves a folded and stripped text as it is. */
  datatype Text = Text(nameKey: string -> string, fold: string -> string, strip: string -> string)

  ghost predicate Settles(t: Text) {
    forall s: string {:trigger t.strip(t.fold(s))} :: t.fold(t.strip(t.fold(s))) == t.strip(t.fold(s))
  }

  /** One alias of one mapping, by its position there. */
  datatype Task = Task(mapping: Mapping, index: nat)

  type NameId = (Option<string>, Option<string>)

  type AliasKey = (RowKey, string, string)

  function OrUnd(language: string): string { if language == "" then "und" else language }

  function NameIdOf(a: AlternateName): NameId { (a.source, a.sourceId) }

  /** The key under which a row that is already there counts. */
  function StoredKey(a: AlternateName, t: Text): AliasKey {
    (AlternatePlaceKey(a), t.fold(OrUnd(a.language)), t.nameKey(a.name))
  }

  /** The key under which a new row is looked up. */
  function NewKey(a: AlternateName, t: Text): AliasKey {
    (AlternatePlaceKey(a), a.language, t.nameKey(a.name))
  }

  function NameIds(rows: seq<AlternateName>): set<NameId> { set a | a in rows :: NameIdOf(a) }

  function StoredKeys(rows: seq<AlternateName>, t: Text): set<AliasKey> { set a | a in rows :: StoredKey(a, t) }

  function NewKeys(rows: seq<AlternateName>, t: Text): set<AliasKey> { set a | a in rows :: NewKey(a, t) }

  /** The row of one alias; `None` where its mapping is not a served one with a locality, or its name
    * cannot be searched for. */
  function NameFor(task: Task, places: seq<Place>, t: Text): (row: Option<AlternateName>)
    requires task.index < |task.mapping.aliases|
    ensures row.Some? ==> AlternatePlaceKey(row.value) == LocalityKey(task.mapping)
  {
    var m := task.mapping;
    var alias := m.aliases[task.index];
    var locality := LastAt(places, LocalityKey(m));
    var name := t.strip(alias.name);
    if !Served(m) || locality.None? || locality.value.placeType != "locality" then None
    else if name == "" || t.nameKey(name) == "" then None
    else
      var source := if m.source.Some? then m.source.value else REVIEW_SOURCE;
      var sourceId := (if m.sourceId.Some? then m.sourceId.value else "") + ":locality-alias:" + Digits(task.index);
      Some(AlternateName(Some(locality.value.source), Some(locality.value.sourceId), name,
                         t.strip(t.fold(OrUnd(alias.language))), Some(source), Some(sourceId)))
  }

  type Tasks = ts: seq<Task> | forall i :: 0 <= i < |ts| ==> ts[i].index < |ts[i].mapping.aliases| witness []

  /** The aliases of the first `i` mappings and the first `k` of the next. */
  function TasksTo(ms: seq<Mapping>, i: nat, k: nat): (ts: Tasks)
    requires i <= |ms| && (i == |ms| ==> k == 0) && (i < |ms| ==> k <= |ms[i].aliases|)
    ensures forall t :: t in ts ==> t.mapping in ms
    decreases i, k
  {
    if k > 0 then TasksTo(ms, i, k - 1) + [Task(ms[i], k - 1)]
    else if i > 0 then TasksTo(ms, i - 1, |ms[i - 1].aliases|)
    else []
  }

  function Found(ts: Tasks, places: seq<Place>, t: Text): (found: seq<Option<AlternateName>>)
    ensures |found| == |ts|
  {
    seq(|ts|, i requires 0 <= i < |ts| => NameFor(ts[i], places, t))
  }

  predicate Clashes(row: AlternateName, start: seq<AlternateName>, rows: seq<AlternateName>, t: Text) {
    || NameIdOf(row) in NameIds(start)
    || NameIdOf(row) in NameIds(rows)
    || NewKey(row, t) in StoredKeys(start, t)
    || NewKey(row, t) in NewKeys(rows, t)
  }

  /** The rows that the first `n` aliases add, `None` where one cannot be added. */
  function Accepted(found: seq<Option<AlternateName>>, n: nat, start: seq<AlternateName>, t: Text)
    : (rows: Option<seq<AlternateName>>)
    requires n <= |found|
    ensures rows.Some? ==> |rows.value| == n
  {
    if n == 0 then Some([])
    else
      var before := Accepted(found, n - 1, start, t);
      if before.None? || found[n - 1].None? || Clashes(found[n - 1].value, start, before.value, t) then None
      else Some(before.value + [found[n - 1].value])
  }

  function AllTasks(ms: seq<Mapping>): Tasks { TasksTo(ms, |ms|, 0) }

  function AddedNames(ms: seq<Mapping>, places: seq<Place>, start: seq<AlternateName>, t: Text)
    : Option<seq<AlternateName>>
  {
    Accepted(Found(AllTasks(ms), places, t), |AllTasks(ms)|, start, t)
  }

  // ----------------------------------------------------------------------
  // The pass
  // ----------------------------------------------------------------------

  lemma {:induction false} AcceptedPrefix(a: seq<Option<AlternateName>>, b: seq<Option<AlternateName>>, n: nat,
                                          start: seq<AlternateName>, t: Text)
    requires n <= |a| && a <= b
    ensures Accepted(a, n, start, t) == Accepted(b, n, start, t)
  {
    if n > 0 {
      AcceptedPrefix(a, b, n - 1, start, t);
    }
  }

  lemma {:induction false} AcceptedStops(found: seq<Option<AlternateName>>, i: nat, start: seq<AlternateName>, t: Text)
    requires i <= |found| && Accepted(found, i, start, t).None?
    ensures Accepted(found, |found|, start, t).None?
    decreases |found| - i
  {
    if i < |found| {
      AcceptedStops(found, i + 1, start, t);
    }
  }

  lemma {:induction false} TasksPrefix(ms: seq<Mapping>, i: nat, k: nat)
    requires i <= |ms| && (i == |ms| ==> k == 0) && (i < |ms| ==> k <= |ms[i].aliases|)
    ensures TasksTo(ms, i, k) <= AllTasks(ms)
    decreases |ms| - i, if i < |ms| then |ms[i].aliases| - k else 0
  {
    if i < |ms| {
      if k < |ms[i].aliases| {
        TasksPrefix(ms, i, k + 1);
      } else {
        TasksPrefix(ms, i + 1, 0);
      }
    }
  }

  lemma IdsGrow(rows: seq<AlternateName>, row: AlternateName, t: Text)
    ensures NameIds(rows + [row]) == NameIds(rows) + {NameIdOf(row)}
    ensures NewKeys(rows + [row], t) == NewKeys(rows, t) + {NewKey(row, t)}
  {
  }

  /** Where the pass stands after the first `n` aliases. */
  ghost predicate Standing(found: seq<Option<AlternateName>>, n: nat, start: seq<AlternateName>,
                           rows: seq<AlternateName>, names: seq<AlternateName>, ids: set<NameId>,
                           keys: set<AliasKey>, t: Text)
  {
    && n <= |found|
    && Accepted(found, n, start, t) == Some(rows)
    && names == start + rows
    && ids == NameIds(start) + NameIds(rows)
    && keys == StoredKeys(start, t) + NewKeys(rows, t)
  }

  lemma StandingStep(found: seq<Option<AlternateName>>, n: nat, start: seq<AlternateName>, rows: seq<AlternateName>,
                     names: seq<AlternateName>, ids: set<NameId>, keys: set<AliasKey>, t: Text)
    requires Standing(found, n, start, rows, names, ids, keys, t) && n < |found|
    ensures found[n].None? ==> Accepted(found, n + 1, start, t).None?
    ensures found[n].Some? ==>
      var row := found[n].value;
      var clash := NameIdOf(row) in ids || NewKey(row, t) in keys;
      && (clash ==> Accepted(found, n + 1, start, t).None?)
      && (!clash ==>
            Standing(found, n + 1, start, rows + [row], names + [row], ids + {NameIdOf(row)},
                     keys + {NewKey(row, t)}, t))
  {
    if found[n].Some? {
      IdsGrow(rows, found[n].value, t);
    }
  }

  lemma NextTask(ms: seq<Mapping>, i: nat, k: nat, places: seq<Place>, t: Text, found: seq<Option<AlternateName>>,
                 row: Option<AlternateName>)
    requires i < |ms| && k < |ms[i].aliases|
    requires found == Found(AllTasks(ms), places, t) && row == NameFor(Task(ms[i], k), places, t)
    ensures var n := |TasksTo(ms, i, k)|;
      n < |found| && |TasksTo(ms, i, k + 1)| == n + 1 && found[n] == row
  {
    TasksPrefix(ms, i, k + 1);
    assert TasksTo(ms, i, k + 1)[|TasksTo(ms, i, k)|] == Task(ms[i], k);
  }

  /** One alias: refused where its row cannot be built or repeats an identity or a name. */
  method AddAlias(m: Manifest, row: Option<AlternateName>, ids: set<NameId>, keys: set<AliasKey>, t: Text,
                  ghost found: seq<Option<AlternateName>>, ghost n: nat, ghost start: seq<AlternateName>,
                  ghost rows: seq<AlternateName>)
    returns (ok: bool, moreIds: set<NameId>, moreKeys: set<AliasKey>, ghost moreRows: seq<AlternateName>)
    requires Standing(found, n, start, rows, m.alternateNames, ids, keys, t) && n < |found| && found[n] == row
    modifies m`alternateNames
    ensures ok ==> Standing(found, n + 1, start, moreRows, m.alternateNames, moreIds, moreKeys, t)
    ensures !ok ==> Accepted(found, |found|, start, t).None?
  {
    ok, moreIds, moreKeys, moreRows := false, ids, keys, rows;
    StandingStep(found, n, start, rows, m.alternateNames, ids, keys, t);
    if row.None? || NameIdOf(row.value) in ids || NewKey(row.value, t) in keys {
      AcceptedStops(found, n + 1, start, t);
      return;
    }
    m.alternateNames := m.alternateNames + [row.value];
    ok, moreRows := true, rows + [row.value];
    moreIds, moreKeys := ids + {NameIdOf(row.value)}, keys + {NewKey(row.value, t)};
  }

  /** The inner loop: the aliases of one mapping. */
  method AddAliasesOf(m: Manifest, mappings: seq<Mapping>, i: nat, ids: set<NameId>, keys: set<AliasKey>, t: Text,
                      ghost found: seq<Option<AlternateName>>, ghost start: seq<AlternateName>,
                      ghost rows: seq<AlternateName>)
    returns (ok: bool, moreIds: set<NameId>, moreKeys: set<AliasKey>, ghost moreRows: seq<AlternateName>)
    requires i < |mappings| && found == Found(AllTasks(mappings), m.places, t)
    requires Standing(found, |TasksTo(mappings, i, 0)|, start, rows, m.alternateNames, ids, keys, t)
    modifies m`alternateNames
    ensures ok ==>
      Standing(found, |TasksTo(mappings, i + 1, 0)|, start, moreRows, m.alternateNames, moreIds, moreKeys, t)
    ensures !ok ==> Accepted(found, |found|, start, t).None?
  {
    ok, moreIds, moreKeys, moreRows := true, ids, keys, rows;
    ghost var n := |TasksTo(mappings, i, 0)|;
    for k := 0 to |mappings[i].aliases|
      invariant n == |TasksTo(mappings, i, k)|
      invariant Standing(found, n, start, moreRows, m.alternateNames, moreIds, moreKeys, t)
    {
      var row := NameFor(Task(mappings[i], k), m.places, t);
      NextTask(mappings, i, k, m.places, t, found, row);
      ok, moreIds, moreKeys, moreRows := AddAlias(m, row, moreIds, moreKeys, t, found, n, start, moreRows);
      if !ok {
        return;
      }
      n := n + 1;
    }
    ok := true;
  }

  /** `add_reviewed_served_locality_aliases`; not `ok` is its ValueError. */
  method AddReviewedServedLocalityAliases(m: Manifest, t: Text) returns (ok: bool)
    modifies m`alternateNames
    ensures var added := AddedNames(m.mappings, m.places, old(m.alternateNames), t);
      && (ok <==> added.Some?)
      && (ok ==> m.alternateNames == old(m.alternateNames) + added.value)
  {
    var mappings := m.mappings;
    ghost var start, found := m.alternateNames, Found(AllTasks(mappings), m.places, t);
    ghost var rows: seq<AlternateName> := [];
    var ids, keys := NameIds(m.alternateNames), StoredKeys(m.alternateNames, t);
    for i := 0 to |mappings|
      invariant Standing(found, |TasksTo(mappings, i, 0)|, start, rows, m.alternateNames, ids, keys, t)
    {
      ok, ids, keys, rows := AddAliasesOf(m, mappings, i, ids, keys, t, found, start, rows);
      if !ok {
        return;
      }
    }
    ok := true;
  }

  // ----------------------------------------------------------------------
  // What the pass keeps unique
  // ----------------------------------------------------------------------

  ghost predicate UniqueIds(rows: seq<AlternateName>) {
    forall i, k :: 0 <= i < k < |rows| ==> NameIdOf(rows[i]) != NameIdOf(rows[k])
  }

  ghost predicate UniqueNames(rows: seq<AlternateName>, t: Text) {
    forall i, k :: 0 <= i < k < |rows| ==> StoredKey(rows[i], t) != StoredKey(rows[k], t)
  }

  lemma InSets(rows: seq<AlternateName>, i: nat, t: Text)
    requires i < |rows|
    ensures NameIdOf(rows[i]) in NameIds(rows) && StoredKey(rows[i], t) in StoredKeys(rows, t) &&
            NewKey(rows[i], t) in NewKeys(rows, t)
  {
  }

  lemma {:induction false} AcceptedAre(found: seq<Option<AlternateName>>, n: nat, start: seq<AlternateName>, t: Text)
    requires n <= |found| && Accepted(found, n, start, t).Some?
    ensures forall k :: 0 <= k < n ==> found[k] == Some(Accepted(found, n, start, t).value[k])
  {
    if n > 0 {
      AcceptedAre(found, n - 1, start, t);
    }
  }

  ghost predicate Apart(row: AlternateName, start: seq<AlternateName>, rows: seq<AlternateName>, t: Text) {
    && NameIdOf(row) !in NameIds(start) && NewKey(row, t) !in StoredKeys(start, t)
    && forall i :: 0 <= i < |rows| ==> NameIdOf(rows[i]) != NameIdOf(row) && NewKey(rows[i], t) != NewKey(row, t)
  }

  lemma NoClashApart(row: AlternateName, start: seq<AlternateName>, rows: seq<AlternateName>, t: Text)
    requires !Clashes(row, start, rows, t)
    ensures Apart(row, start, rows, t)
  {
  }

  /** No accepted row repeats an identity or a lookup key of a row before it. */
  lemma {:induction false} AcceptedApart(found: seq<Option<AlternateName>>, n: nat, start: seq<AlternateName>,
                                         t: Text, k: nat)
    requires k < n <= |found| && Accepted(found, n, start, t).Some?
    ensures var rows := Accepted(found, n, start, t).value; Apart(rows[k], start, rows[..k], t)
  {
    var rows := Accepted(found, n, start, t).value;
    var before := Accepted(found, n - 1, start, t).value;
    if k < n - 1 {
      AcceptedApart(found, n - 1, start, t, k);
      assert rows[..k] == before[..k];
    } else {
      NoClashApart(rows[k], start, before, t);
      assert rows[..k] == before;
    }
  }

  /** The row is the alias of a served mapping, under a searchable name, for the locality the mapping leads to. */
  ghost predicate Projects(row: AlternateName, task: Task, places: seq<Place>, t: Text) {
    var m := task.mapping;
    && task.index < |m.aliases| && Served(m)
    && row.name == t.strip(m.aliases[task.index].name) && t.nameKey(row.name) != ""
    && AlternatePlaceKey(row) == LocalityKey(m)
    && exists i :: 0 <= i < |places| && places[i].placeType == "locality" && KeyOfPlace(places[i]) == LocalityKey(m)
  }

  /** Every appended row projects an alias of the manifest's mappings onto an existing locality. */
  lemma AddedNamesProject(ms: seq<Mapping>, places: seq<Place>, start: seq<AlternateName>, t: Text, k: nat)
    requires AddedNames(ms, places, start, t).Some? && k < |AddedNames(ms, places, start, t).value|
    ensures var row := AddedNames(ms, places, start, t).value[k];
      exists task: Task :: task.mapping in ms && Projects(row, task, places, t)
  {
    var ts := AllTasks(ms);
    AcceptedAre(Found(ts, places, t), |ts|, start, t);
    assert NameFor(ts[k], places, t) == Some(AddedNames(ms, places, start, t).value[k]);
    var locality := LastAt(places, LocalityKey(ts[k].mapping)).value;
    var i :| 0 <= i < |places| && places[i] == locality;
    assert ts[k] in ts;
    assert Projects(AddedNames(ms, places, start, t).value[k], ts[k], places, t);
  }

  /** The source identities of the alternate names stay unique. */
  lemma IdsStayUnique(found: seq<Option<AlternateName>>, n: nat, start: seq<AlternateName>, t: Text)
    requires n <= |found| && Accepted(found, n, start, t).Some?
    ensures UniqueIds(start + Accepted(found, n, start, t).value) <==> UniqueIds(start)
  {
    var rows := Accepted(found, n, start, t).value;
    var all := start + rows;
    if UniqueIds(start) {
      forall i, k | 0 <= i < k < |all|
        ensures NameIdOf(all[i]) != NameIdOf(all[k])
      {
        if k >= |start| {
          AcceptedApart(found, n, start, t, k - |start|);
          if i < |start| {
            InSets(start, i, t);
          } else {
            assert rows[..k - |start|][i - |start|] == all[i];
          }
        }
      }
    } else {
      var i, k :| 0 <= i < k < |start| && NameIdOf(start[i]) == NameIdOf(start[k]);
      assert all[i] == start[i] && all[k] == start[k];
    }
  }

  /** A row whose language is blank, stored under a name that another row has without a language or as "und". */
  ghost predicate BlankClash(rows: seq<AlternateName>, start: seq<AlternateName>, t: Text) {
    exists i :: 0 <= i < |rows| && rows[i].language == "" && BlankClashAt(rows, i, start, t)
  }

  ghost predicate BlankClashAt(rows: seq<AlternateName>, i: nat, start: seq<AlternateName>, t: Text)
    requires i < |rows|
  {
    || (exists k :: 0 <= k < |start| && StoredKey(start[k], t) == StoredKey(rows[i], t))
    || (exists k :: 0 <= k < |rows| && k != i && StoredKey(rows[k], t) == StoredKey(rows[i], t))
  }

  /** Rows with a language are stored under the key they were looked up with. */
  ghost predicate KeyedAlike(rows: seq<AlternateName>, t: Text) {
    forall k :: 0 <= k < |rows| && rows[k].language != "" ==> StoredKey(rows[k], t) == NewKey(rows[k], t)
  }

  lemma StoredAsNew(ts: Tasks, places: seq<Place>, start: seq<AlternateName>, t: Text)
    requires Settles(t) && Accepted(Found(ts, places, t), |ts|, start, t).Some?
    ensures KeyedAlike(Accepted(Found(ts, places, t), |ts|, start, t).value, t)
  {
    var found := Found(ts, places, t);
    var rows := Accepted(found, |ts|, start, t).value;
    AcceptedAre(found, |ts|, start, t);
    forall k | 0 <= k < |rows| && rows[k].language != ""
      ensures StoredKey(rows[k], t) == NewKey(rows[k], t)
    {
      var language := OrUnd(ts[k].mapping.aliases[ts[k].index].language);
      assert found[k] == NameFor(ts[k], places, t);
      assert t.fold(t.strip(t.fold(language))) == t.strip(t.fold(language));
    }
  }

  /** Two rows of the completed list, the second one added by the pass. */
  lemma NamesApart(found: seq<Option<AlternateName>>, start: seq<AlternateName>, rows: seq<AlternateName>, t: Text,
                   i: nat, k: nat)
    requires Accepted(found, |found|, start, t) == Some(rows) && KeyedAlike(rows, t) && !BlankClash(rows, start, t)
    requires k < |rows| && i < |start| + k
    ensures StoredKey((start + rows)[i], t) != StoredKey(rows[k], t)
  {
    AcceptedApart(found, |found|, start, t, k);
    assert rows[k].language == "" ==> !BlankClashAt(rows, k, start, t);
    if i < |start| {
      InSets(start, i, t);
    } else {
      var j := i - |start|;
      assert rows[..k][j] == rows[j];
      assert rows[j].language == "" ==> !BlankClashAt(rows, j, start, t);
    }
  }

  lemma NamesStayUnique(found: seq<Option<AlternateName>>, start: seq<AlternateName>, rows: seq<AlternateName>, t: Text)
    requires Accepted(found, |found|, start, t) == Some(rows) && KeyedAlike(rows, t) && UniqueNames(start, t)
    requires !BlankClash(rows, start, t)
    ensures UniqueNames(start + rows, t)
  {
    var all := start + rows;
    forall i, k | 0 <= i < k < |all|
      ensures StoredKey(all[i], t) != StoredKey(all[k], t)
    {
      if k >= |start| {
        NamesApart(found, start, rows, t, i, k - |start|);
      }
    }
  }

  lemma BlankClashRepeats(start: seq<AlternateName>, rows: seq<AlternateName>, t: Text)
    requires BlankClash(rows, start, t)
    ensures !UniqueNames(start + rows, t)
  {
    var all := start + rows;
    var i :| 0 <= i < |rows| && rows[i].language == "" && BlankClashAt(rows, i, start, t);
    assert all[|start| + i] == rows[i];
    if k :| 0 <= k < |start| && StoredKey(start[k], t) == StoredKey(rows[i], t) {
      assert all[k] == start[k];
    } else {
      var k :| 0 <= k < |rows| && k != i && StoredKey(rows[k], t) == StoredKey(rows[i], t);
      assert all[|start| + k] == rows[k];
    }
  }

  /** An alias has a row exactly if its mapping is a served one whose key is that of a locality, the last place with
    * that key, and its stripped name is not blank and can be searched for; and this is the row. */
  lemma NameForIff(task: Task, places: seq<Place>, t: Text, row: AlternateName)
    requires task.index < |task.mapping.aliases|
    ensures var m, alias := task.mapping, task.mapping.aliases[task.index];
      NameFor(task, places, t) == Some(row) <==>
        && (m.relationship == None || m.relationship == Some("served"))
        && LocalityAt(places, LocalityKey(m))
        && row.name == t.strip(alias.name) && row.name != "" && t.nameKey(row.name) != ""
        && row.language == t.strip(t.fold(if alias.language == "" then "und" else alias.language))
        && row.placeSource == LocalityKey(m).0 && row.placeId == Some(LocalityKey(m).1)
        && row.source == (if m.source.Some? then m.source else Some("shiptrip-airport-locality-review"))
        && row.sourceId ==
             Some((if m.sourceId.Some? then m.sourceId.value else "") + ":locality-alias:" + Digits(task.index))
  {
    LocalityAtIff(places, LocalityKey(task.mapping));
  }

  /** The last place with the key is a locality. */
  ghost predicate LocalityAt(places: seq<Place>, key: RowKey) {
    exists p :: LastUnder(places, key, p) && p.placeType == "locality"
  }

  lemma LocalityAtIff(places: seq<Place>, key: RowKey)
    ensures LocalityAt(places, key) <==> LastAt(places, key).Some? && LastAt(places, key).value.placeType == "locality"
  {
    forall p
      ensures LastAt(places, key) == Some(p) <==> LastUnder(places, key, p)
    {
      LastAtIff(places, key, p);
    }
  }

  /** Alias `k` has its row, which repeats no identity and no name of a row before it. */
  ghost predicate ApartAt(found: seq<Option<AlternateName>>, rows: seq<AlternateName>, k: nat,
                          start: seq<AlternateName>, t: Text)
    requires k < |found| && k < |rows|
  {
    found[k] == Some(rows[k]) && StandsApart(rows[k], start, rows[..k], t)
  }

  /** No row has the identity of this one, or its place, name and language. */
  ghost predicate StandsApart(row: AlternateName, start: seq<AlternateName>, rows: seq<AlternateName>, t: Text) {
    && (forall i :: 0 <= i < |start| ==> !Repeats(start[i], t.fold(LanguageOf(start[i])), row, t))
    && (forall i :: 0 <= i < |rows| ==> !Repeats(rows[i], rows[i].language, row, t))
  }

  /** What a row that is there already counts as. */
  function LanguageOf(a: AlternateName): string { if a.language == "" then "und" else a.language }

  predicate Repeats(a: AlternateName, language: string, row: AlternateName, t: Text) {
    SameIdentity(a, row) || (SamePlaceAndName(a, row, t) && language == row.language)
  }

  predicate SameIdentity(a: AlternateName, b: AlternateName) {
    a.source == b.source && a.sourceId == b.sourceId
  }

  predicate SamePlaceAndName(a: AlternateName, b: AlternateName, t: Text) {
    AlternatePlaceKey(a) == AlternatePlaceKey(b) && t.nameKey(a.name) == t.nameKey(b.name)
  }

  lemma StandsApartIff(row: AlternateName, start: seq<AlternateName>, rows: seq<AlternateName>, t: Text)
    ensures StandsApart(row, start, rows, t) <==> !Clashes(row, start, rows, t)
  {
    if !Clashes(row, start, rows, t) {
      forall i | 0 <= i < |start|
        ensures NameIdOf(start[i]) != NameIdOf(row) && StoredKey(start[i], t) != NewKey(row, t)
      {
        InSets(start, i, t);
      }
      forall i | 0 <= i < |rows|
        ensures NameIdOf(rows[i]) != NameIdOf(row) && NewKey(rows[i], t) != NewKey(row, t)
      {
        InSets(rows, i, t);
      }
    }
  }

  lemma {:induction false} AcceptedNoClash(found: seq<Option<AlternateName>>, n: nat, start: seq<AlternateName>,
                                           t: Text, k: nat)
    requires k < n <= |found| && Accepted(found, n, start, t).Some?
    ensures var rows := Accepted(found, n, start, t).value; !Clashes(rows[k], start, rows[..k], t)
  {
    var rows := Accepted(found, n, start, t).value;
    var before := Accepted(found, n - 1, start, t).value;
    if k < n - 1 {
      AcceptedNoClash(found, n - 1, start, t, k);
      assert rows[..k] == before[..k];
    } else {
      assert rows[..k] == before;
    }
  }

  ghost predicate AllApart(found: seq<Option<AlternateName>>, n: nat, start: seq<AlternateName>,
                           rows: seq<AlternateName>, t: Text)
  {
    n <= |found| && |rows| == n && forall k {:trigger ApartAt(found, rows, k, start, t)} ::
      0 <= k < n ==> ApartAt(found, rows, k, start, t)
  }

  lemma AcceptedAllApart(found: seq<Option<AlternateName>>, n: nat, start: seq<AlternateName>, rows: seq<AlternateName>,
                         t: Text)
    requires n <= |found| && Accepted(found, n, start, t) == Some(rows)
    ensures AllApart(found, n, start, rows, t)
  {
    AcceptedAre(found, n, start, t);
    forall k | 0 <= k < n
      ensures ApartAt(found, rows, k, start, t)
    {
      AcceptedNoClash(found, n, start, t, k);
      StandsApartIff(rows[k], start, rows[..k], t);
    }
  }

  lemma AllApartFront(found: seq<Option<AlternateName>>, n: nat, start: seq<AlternateName>, rows: seq<AlternateName>,
                      t: Text)
    requires n > 0 && AllApart(found, n, start, rows, t)
    ensures AllApart(found, n - 1, start, rows[..n - 1], t)
    ensures found[n - 1] == Some(rows[n - 1]) && !Clashes(rows[n - 1], start, rows[..n - 1], t)
  {
    var front := rows[..n - 1];
    assert ApartAt(found, rows, n - 1, start, t);
    StandsApartIff(rows[n - 1], start, front, t);
    forall k | 0 <= k < n - 1
      ensures ApartAt(found, front, k, start, t)
    {
      assert ApartAt(found, rows, k, start, t);
      assert front[..k] == rows[..k];
    }
  }

  lemma {:induction false} AllApartAccepted(found: seq<Option<AlternateName>>, n: nat, start: seq<AlternateName>,
                                            rows: seq<AlternateName>, t: Text)
    requires AllApart(found, n, start, rows, t)
    ensures Accepted(found, n, start, t) == Some(rows)
  {
    if n > 0 {
      AllApartFront(found, n, start, rows, t);
      AllApartAccepted(found, n - 1, start, rows[..n - 1], t);
      assert rows == rows[..n - 1] + [rows[n - 1]];
    }
  }

  /** The aliases are accepted exactly when each one has a row that is apart from all before it, and these are the
    * rows. */
  lemma AcceptedIff(found: seq<Option<AlternateName>>, n: nat, start: seq<AlternateName>, rows: seq<AlternateName>,
                    t: Text)
    requires n <= |found|
    ensures Accepted(found, n, start, t) == Some(rows) <==> AllApart(found, n, start, rows, t)
  {
    if Accepted(found, n, start, t) == Some(rows) {
      AcceptedAllApart(found, n, start, rows, t);
    }
    if AllApart(found, n, start, rows, t) {
      AllApartAccepted(found, n, start, rows, t);
    }
  }

  /** Every alias of every mapping is tried. */
  lemma {:induction false} TasksMeaning(ms: seq<Mapping>, i: nat, k: nat, task: Task)
    requires i <= |ms| && (i == |ms| ==> k == 0) && (i < |ms| ==> k <= |ms[i].aliases|)
    ensures task in TasksTo(ms, i, k) <==>
      || (exists j :: 0 <= j < i && task.mapping == ms[j] && task.index < |ms[j].aliases|)
      || (i < |ms| && task.mapping == ms[i] && task.index < k)
    decreases i, k
  {
    if k > 0 {
      TasksMeaning(ms, i, k - 1, task);
    } else if i > 0 {
      TasksMeaning(ms, i - 1, |ms[i - 1].aliases|, task);
    }
  }

  // ----------------------------------------------------------------------
  // When they do not stay unique, told from the manifest
  // ----------------------------------------------------------------------

  /** The name and the language of an alias, as the pass reads them. */
  function AliasName(task: Task, t: Text): string
    requires task.index < |task.mapping.aliases|
  {
    t.strip(task.mapping.aliases[task.index].name)
  }

  function AliasLanguage(task: Task, t: Text): string
    requires task.index < |task.mapping.aliases|
  {
    t.strip(t.fold(OrUnd(task.mapping.aliases[task.index].language)))
  }

  /** A language that counts as "und": left out, or a way of writing it. */
  predicate CountsAsUnd(language: string, t: Text) {
    t.fold(OrUnd(language)) == t.fold("und")
  }

  /** A row the manifest has already: the place and the name of alias `i`, in no language. */
  predicate MeetsRow(ts: Tasks, i: nat, start: seq<AlternateName>, k: nat, t: Text)
    requires i < |ts| && k < |start|
  {
    && AlternatePlaceKey(start[k]) == LocalityKey(ts[i].mapping)
    && t.nameKey(start[k].name) == t.nameKey(AliasName(ts[i], t))
    && CountsAsUnd(start[k].language, t)
  }

  /** Another alias: the place and the name of alias `i`, in no language. */
  predicate MeetsAlias(ts: Tasks, i: nat, k: nat, t: Text)
    requires i < |ts| && k < |ts|
  {
    && LocalityKey(ts[k].mapping) == LocalityKey(ts[i].mapping)
    && t.nameKey(AliasName(ts[k], t)) == t.nameKey(AliasName(ts[i], t))
    && CountsAsUnd(AliasLanguage(ts[k], t), t)
  }

  /** An alias with a blank language meets a row or another alias of the same place and name that counts as "und". */
  ghost predicate BlankMeets(ts: Tasks, start: seq<AlternateName>, t: Text) {
    exists i :: 0 <= i < |ts| && AliasLanguage(ts[i], t) == "" && MeetsAny(ts, i, start, t)
  }

  ghost predicate MeetsAny(ts: Tasks, i: nat, start: seq<AlternateName>, t: Text)
    requires i < |ts|
  {
    || (exists k :: 0 <= k < |start| && MeetsRow(ts, i, start, k, t))
    || (exists k :: 0 <= k < |ts| && k != i && MeetsAlias(ts, i, k, t))
  }

  /** The row of an accepted alias, field by field. */
  lemma RowOf(ts: Tasks, places: seq<Place>, start: seq<AlternateName>, rows: seq<AlternateName>, t: Text, i: nat)
    requires Accepted(Found(ts, places, t), |ts|, start, t) == Some(rows) && i < |ts|
    ensures AlternatePlaceKey(rows[i]) == LocalityKey(ts[i].mapping)
    ensures rows[i].name == AliasName(ts[i], t) && rows[i].language == AliasLanguage(ts[i], t)
  {
    AcceptedAre(Found(ts, places, t), |ts|, start, t);
    assert NameFor(ts[i], places, t) == Some(rows[i]);
  }

  lemma BlankAt(ts: Tasks, places: seq<Place>, start: seq<AlternateName>, rows: seq<AlternateName>, t: Text, i: nat)
    requires Accepted(Found(ts, places, t), |ts|, start, t) == Some(rows) && i < |ts| && AliasLanguage(ts[i], t) == ""
    ensures BlankClashAt(rows, i, start, t) <==> MeetsAny(ts, i, start, t)
  {
    RowOf(ts, places, start, rows, t, i);
    forall k | 0 <= k < |start|
      ensures MeetsRow(ts, i, start, k, t) <==> StoredKey(start[k], t) == StoredKey(rows[i], t)
    {
    }
    forall k | 0 <= k < |ts|
      ensures MeetsAlias(ts, i, k, t) <==> StoredKey(rows[k], t) == StoredKey(rows[i], t)
    {
      RowOf(ts, places, start, rows, t, k);
    }
  }

  lemma BlankMeetsIff(ts: Tasks, places: seq<Place>, start: seq<AlternateName>, rows: seq<AlternateName>, t: Text)
    requires Accepted(Found(ts, places, t), |ts|, start, t) == Some(rows)
    ensures BlankClash(rows, start, t) <==> BlankMeets(ts, start, t)
  {
    forall i | 0 <= i < |ts|
      ensures rows[i].language == "" <==> AliasLanguage(ts[i], t) == ""
      ensures AliasLanguage(ts[i], t) == "" ==> (BlankClashAt(rows, i, start, t) <==> MeetsAny(ts, i, start, t))
    {
      RowOf(ts, places, start, rows, t, i);
      if AliasLanguage(ts[i], t) == "" {
        BlankAt(ts, places, start, rows, t, i);
      }
    }
  }

  /** The pass keeps (place, language, normalised name) unique exactly when, in the manifest it is given, no alias
    * with a blank language meets a row or another alias of the same place and name that counts as "und". */
  lemma NamesStayUniqueIff(ms: seq<Mapping>, places: seq<Place>, start: seq<AlternateName>, t: Text)
    requires Settles(t) && AddedNames(ms, places, start, t).Some? && UniqueNames(start, t)
    ensures UniqueNames(start + AddedNames(ms, places, start, t).value, t) <==> !BlankMeets(AllTasks(ms), start, t)
  {
    var rows := AddedNames(ms, places, start, t).value;
    StoredAsNew(AllTasks(ms), places, start, t);
    BlankMeetsIff(AllTasks(ms), places, start, rows, t);
    if BlankClash(rows, start, t) {
      BlankClashRepeats(start, rows, t);
    } else {
      NamesStayUnique(Found(AllTasks(ms), places, t), start, rows, t);
    }
  }

  lemma FirstAccepted(found: seq<Option<AlternateName>>, row: AlternateName, start: seq<AlternateName>, t: Text)
    requires found == [Some(row)] && !Clashes(row, start, [], t)
    ensures Accepted(found, |found|, start, t) == Some([row])
  {
    var n := |found|;
    assert Accepted(found, n - 1, start, t) == Some([]);
    assert [] + [row] == [row];
  }

  /** An alias whose language is a single space breaks the uniqueness. */
  lemma BlankLanguageRepeats() returns (ms: seq<Mapping>, places: seq<Place>, start: seq<AlternateName>, t: Text)
    ensures Settles(t) && UniqueNames(start, t) && AddedNames(ms, places, start, t).Some?
    ensures !UniqueNames(start + AddedNames(ms, places, start, t).value, t)
  {
    t := Text(s => s, s => s, s => if s == " " then "" else s);
    places := [Place("c", "1", "DZ", "locality", "n", None, None, None, None, "", false, false, "")];
    start := [AlternateName(Some("c"), Some("1"), "n", "und", Some("x"), Some("y"))];
    ms := [Mapping(Some("r"), Some("m"), None, None, Some("c"), Some("1"), None, true, true, [Alias("n", " ")])];
    var ts := AllTasks(ms);
    assert TasksTo(ms, 0, 1) == [Task(ms[0], 0)];
    assert ts == [Task(ms[0], 0)];
    assert LastAt(places, LocalityKey(ms[0])) == Some(places[0]);
    var row := NameFor(ts[0], places, t).value;
    var found := Found(ts, places, t);
    assert found == [Some(row)];
    assert NameIds(start) == {NameIdOf(start[0])} && StoredKeys(start, t) == {StoredKey(start[0], t)};
    assert NameIds([]) == {} && NewKeys([], t) == {};
    assert row.source == Some("r") && row.language == "" && start[0].language == "und";
    assert NewKey(row, t).1 != StoredKey(start[0], t).1;
    assert !Clashes(row, start, [], t);
    FirstAccepted(found, row, start, t);
    assert StoredKey((start + [row])[0], t) == StoredKey((start + [row])[1], t);
  }
}
