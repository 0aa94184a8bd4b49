/** Reconciling the supplement's communes with the ONS codes and the legal commune lists. */
module GeographyAlgeria {
  import opened Wrappers
  import opened Decimal
  import opened Geography

  const WILAYAS := 69
  const COMMUNES := 1541
  const WILAYA_SOURCE := "algeria-wilaya"
  const COMMUNE_SOURCE := "algeria-commune"

  datatype Wilaya = Wilaya(code: nat, name: string, nameAr: string)

  /** `postTail` is the number in the last three characters of the post code, where they are one. */
  datatype Commune = Commune(wilaya: nat, name: string, nameAr: string, postTail: Option<nat>)

  datatype Ons = Ons(name: string, wilaya: nat)

  /** One wilaya and its communes as the law lists them. */
  datatype Assignment = Assignment(code: nat, names: seq<string>)

  type Law = law: seq<Assignment> |
    forall i, j :: 0 <= i < j < |law| ==> law[i].code != law[j].code
    witness []

  /** The reviewed alias tables and the name normalisation. */
  datatype Tables = Tables(
    nameKey: string -> string,
    officialAliases: map<string, string>,
    onsAliases: map<string, string>,
    mother: map<nat, nat>)

  /** What a commune of the supplement turns out to be. */
  datatype Resolved = Resolved(id: string, name: string, parent: nat)

  /** `f"{n:02d}"` */
  function Two(n: nat): string { if n < 10 then "0" + Digits(n) else Digits(n) }

  // ----------------------------------------------------------------------
  // The rules, row by row
  // ----------------------------------------------------------------------

  function NamesOf(law: seq<Assignment>, code: nat): (names: Option<seq<string>>)
    ensures names.Some? <==> exists i :: 0 <= i < |law| && law[i].code == code
    ensures names.Some? ==> exists i :: 0 <= i < |law| && law[i] == Assignment(code, names.value)
  {
    if law == [] then None
    else if law[|law| - 1].code == code then Some(law[|law| - 1].names)
    else NamesOf(law[..|law| - 1], code)
  }

  function ByKey(names: seq<string>, nameKey: string -> string): (m: map<string, string>)
    ensures forall k :: k in m ==> m[k] in names
  {
    if names == [] then map[]
    else ByKey(names[..|names| - 1], nameKey)[nameKey(names[|names| - 1]) := names[|names| - 1]]
  }

  /** The legal spellings of one wilaya, under their keys and under the aliases that apply to it. */
  function Spellings(names: seq<string>, t: Tables): (m: map<string, string>)
    ensures forall k :: k in m ==> m[k] in names
  {
    ByKey(names, t.nameKey) + map k | k in t.officialAliases && t.officialAliases[k] in names :: t.officialAliases[k]
  }

  function LegalName(c: Commune, law: seq<Assignment>, t: Tables): (name: Option<string>)
    ensures name.Some? && NamesOf(law, c.wilaya).Some? ==> name.value in NamesOf(law, c.wilaya).value
  {
    var names := NamesOf(law, c.wilaya);
    if names.None? then Some(c.name)
    else
      var spellings := Spellings(names.value, t);
      var key := t.nameKey(c.name);
      if key in spellings then Some(spellings[key]) else None
  }

  function OnsKey(c: Commune, t: Tables): string {
    var key := t.nameKey(c.name);
    if key in t.onsAliases then t.nameKey(t.onsAliases[key]) else key
  }

  function InWilaya(ons: map<string, Ons>, t: Tables, wilaya: nat, key: string): set<string> {
    set id | id in ons && ons[id].wilaya == wilaya && t.nameKey(ons[id].name) == key
  }

  function Named(ons: map<string, Ons>, t: Tables, key: string): set<string> {
    set id | id in ons && t.nameKey(ons[id].name) == key
  }

  ghost function Only(ids: set<string>): (id: Option<string>)
    ensures id.Some? <==> |ids| == 1
    ensures id.Some? ==> ids == {id.value}
  {
    if |ids| == 1 then
      var id :| id in ids;
      assert |ids - {id}| == 0;
      Some(id)
    else None
  }

  /** The ONS code: by name within wilayas 49 to 58, elsewhere by the composed code and, where there is
    * no such code, by a name that only one commune of the country has. */
  ghost function OnsCode(c: Commune, ons: map<string, Ons>, t: Tables): (id: Option<string>)
    ensures id.Some? ==> id.value in ons
  {
    if 49 <= c.wilaya <= 58 then Only(InWilaya(ons, t, c.wilaya, OnsKey(c, t)))
    else if c.postTail.None? then None
    else
      var wilaya := if c.wilaya in t.mother then t.mother[c.wilaya] else c.wilaya;
      var id := Two(wilaya) + Two(c.postTail.value);
      if id in ons then Some(id) else Only(Named(ons, t, OnsKey(c, t)))
  }

  ghost function Resolve(c: Commune, ons: map<string, Ons>, law: seq<Assignment>, t: Tables): Option<Resolved> {
    var name := LegalName(c, law, t);
    var id := OnsCode(c, ons, t);
    if name.None? || id.None? then None
    else
      var parent := if NamesOf(law, c.wilaya).Some? then c.wilaya else ons[id.value].wilaya;
      Some(Resolved(id.value, name.value, parent))
  }

  function CommunePlace(r: Resolved): Place {
    Place(COMMUNE_SOURCE, r.id, "DZ", "locality", r.name, Some(WILAYA_SOURCE), Some(Two(r.parent)),
          None, None, "", false, false, "")
  }

  function CommuneArabic(c: Commune, id: string): seq<AlternateName> {
    if c.nameAr == "" then []
    else
      [AlternateName(Some(COMMUNE_SOURCE), Some(id), c.nameAr, "ar", Some("algeria-coordinate-supplement-ar"),
                     Some("commune:" + id + ":ar"))]
  }

  /** The rows that the first `n` resolutions leave behind, as long as none fails and none repeats a code. */
  ghost function Reconciled(found: seq<Option<Resolved>>, n: nat): (rows: Option<seq<Resolved>>)
    requires n <= |found|
    ensures rows.Some? ==> |rows.value| == n
  {
    if n == 0 then Some([])
    else
      var before := Reconciled(found, n - 1);
      var r := found[n - 1];
      if before.None? || r.None? || r.value.id in Ids(before.value) then None else Some(before.value + [r.value])
  }

  ghost function Resolutions(communes: seq<Commune>, ons: map<string, Ons>, law: seq<Assignment>, t: Tables)
    : (found: seq<Option<Resolved>>)
    ensures |found| == |communes|
  {
    seq(|communes|, i requires 0 <= i < |communes| => Resolve(communes[i], ons, law, t))
  }

  ghost function Rows(communes: seq<Commune>, ons: map<string, Ons>, law: seq<Assignment>, t: Tables)
    : (rows: Option<seq<Resolved>>)
    ensures rows.Some? ==> |rows.value| == |communes|
  {
    Reconciled(Resolutions(communes, ons, law, t), |communes|)
  }

  function Ids(rows: seq<Resolved>): set<string> { set r | r in rows :: r.id }

  function Places(rows: seq<Resolved>): seq<Place> {
    seq(|rows|, i requires 0 <= i < |rows| => CommunePlace(rows[i]))
  }

  /** The Arabic names of the first communes. */
  function Arabic(communes: seq<Commune>, rows: seq<Resolved>): seq<AlternateName>
    requires |rows| <= |communes|
  {
    if rows == [] then []
    else
      var n := |rows| - 1;
      Arabic(communes, rows[..n]) + CommuneArabic(communes[n], rows[n].id)
  }

  /** The names imported under one wilaya. */
  function Imported(places: seq<Place>, wilaya: nat): set<string> {
    set p | p in places && p.source == COMMUNE_SOURCE && p.parentId == Some(Two(wilaya)) :: p.name
  }

  function KeyIn(row: Ons, t: Tables): (nat, string) { (row.wilaya, t.nameKey(row.name)) }

  ghost predicate OnsNamesUnique(ons: map<string, Ons>, t: Tables) {
    forall a, b :: a in ons && b in ons && KeyIn(ons[a], t) == KeyIn(ons[b], t) ==> a == b
  }

  function FirstWith(wilayas: seq<Wilaya>, code: nat): (at: Option<nat>)
    ensures at.Some? ==> at.value < |wilayas| && wilayas[at.value].code == code
    ensures at.None? ==> forall k :: 0 <= k < |wilayas| ==> wilayas[k].code != code
  {
    if wilayas == [] then None
    else
      var before := FirstWith(wilayas[..|wilayas| - 1], code);
      if before.None? && wilayas[|wilayas| - 1].code == code then Some(|wilayas| - 1) else before
  }

  /** The wilayas under the first `n` legal lists, renamed to the seat that each list starts with. */
  function Renamed(wilayas: seq<Wilaya>, law: seq<Assignment>, n: nat): (r: Option<seq<Wilaya>>)
    requires n <= |law|
    ensures r.Some? ==> |r.value| == |wilayas| && forall k :: 0 <= k < |wilayas| ==> r.value[k].code == wilayas[k].code
    ensures r.Some? ==> forall i :: 0 <= i < n ==> law[i].names != []
  {
    if n == 0 then Some(wilayas)
    else
      var before := Renamed(wilayas, law, n - 1);
      var at := if before.None? then None else FirstWith(before.value, law[n - 1].code);
      if at.None? || law[n - 1].names == [] then None
      else Some(before.value[at.value := before.value[at.value].(name := law[n - 1].names[0])])
  }

  function WilayaPlace(w: Wilaya): Place {
    Place(WILAYA_SOURCE, Two(w.code), "DZ", "admin_region", w.name, None, None, None, None, "", false, false, "")
  }

  function WilayaPlaces(wilayas: seq<Wilaya>): seq<Place> {
    seq(|wilayas|, i requires 0 <= i < |wilayas| => WilayaPlace(wilayas[i]))
  }

  /** The Arabic names of the first `n` wilayas. */
  function WilayaNames(wilayas: seq<Wilaya>, n: nat): seq<AlternateName>
    requires n <= |wilayas|
  {
    if n == 0 then [] else WilayaNames(wilayas, n - 1) + WilayaArabic(wilayas[n - 1])
  }

  function WilayaArabic(w: Wilaya): seq<AlternateName> {
    if w.nameAr == "" then []
    else
      [AlternateName(Some(WILAYA_SOURCE), Some(Two(w.code)), w.nameAr, "ar", Some("algeria-coordinate-supplement-ar"),
                     Some("wilaya:" + Two(w.code) + ":ar"))]
  }

  function NameSet(names: seq<string>): set<string> { set name | name in names }

  /** The checks under which the parser returns. */
  ghost predicate Accepts(start: seq<Place>, wilayas: seq<Wilaya>, communes: seq<Commune>, ons: map<string, Ons>,
                          law: seq<Assignment>, t: Tables)
  {
    && |wilayas| == WILAYAS && |communes| == COMMUNES
    && Renamed(wilayas, law, |law|).Some?
    && OnsNamesUnique(ons, t)
    && Rows(communes, ons, law, t).Some?
    && var rows := Rows(communes, ons, law, t).value;
       && Ids(rows) == ons.Keys
       && var places := start + WilayaPlaces(Renamed(wilayas, law, |law|).value) + Places(rows);
          forall i :: 0 <= i < |law| ==> Imported(places, law[i].code) == NameSet(law[i].names)
  }

  // ----------------------------------------------------------------------
  // Which code and which name, said of the rows
  // ----------------------------------------------------------------------

  /** `s` is `n` in decimal, with a zero in front where that is one digit only. */
  predicate IsTwo(s: string, n: nat) {
    AllDigits(s) && |s| >= 2 && Value(s) == n && (|s| > 2 ==> s[0] != '0')
  }

  lemma TwoIff(s: string, n: nat)
    ensures IsTwo(s, n) <==> s == Two(n)
  {
    TwoIsTwo(n);
    if IsTwo(s, n) && s[0] == '0' {
      assert s == [s[0], s[1]];
      ValueTwo(s[0], s[1]);
      DigitAgain(s[1]);
    } else if IsTwo(s, n) {
      OneNumeral(s);
      DigitsLength(n, 1);
      assert Pow10(1) == 10 * Pow10(0);
    }
  }

  lemma TwoIsTwo(n: nat)
    ensures IsTwo(Two(n), n)
  {
    DigitsBack(n);
    DigitsLead(n);
    DigitsLength(n, 1);
    assert Pow10(1) == 10 * Pow10(0);
    if n < 10 {
      ValueConcat("0", Digits(n));
      assert "0"[..0] == [];
      assert Value("0") == 0;
    }
  }

  /** `s` is the two-digit `w` followed by the two-digit `n`. */
  ghost predicate Composed(s: string, w: nat, n: nat) {
    exists k :: 0 <= k <= |s| && IsTwo(s[..k], w) && IsTwo(s[k..], n)
  }

  lemma ComposedIff(s: string, w: nat, n: nat)
    ensures Composed(s, w, n) <==> s == Two(w) + Two(n)
  {
    forall k | 0 <= k <= |s| && IsTwo(s[..k], w) && IsTwo(s[k..], n)
      ensures s == Two(w) + Two(n)
    {
      TwoIff(s[..k], w);
      TwoIff(s[k..], n);
      assert s == s[..k] + s[k..];
    }
    if s == Two(w) + Two(n) {
      var k := |Two(w)|;
      assert s[..k] == Two(w) && s[k..] == Two(n);
      TwoIsTwo(w);
      TwoIsTwo(n);
    }
  }

  /** Below 100, such a code is the four digits of the two numbers. */
  lemma ComposedDigits(s: string, w: nat, n: nat)
    requires w < 100 && n < 100
    ensures Composed(s, w, n) <==>
      && |s| == 4
      && s[0] as int == '0' as int + w / 10 && s[1] as int == '0' as int + w % 10
      && s[2] as int == '0' as int + n / 10 && s[3] as int == '0' as int + n % 10
  {
    ComposedIff(s, w, n);
    TwoDigits(w);
    TwoDigits(n);
  }

  lemma TwoDigits(n: nat)
    requires n < 100
    ensures |Two(n)| == 2 && Two(n)[0] as int == '0' as int + n / 10 && Two(n)[1] as int == '0' as int + n % 10
  {
    DigitBack(n / 10);
    DigitBack(n % 10);
    if n >= 10 {
      assert Digits(n / 10) == [DigitChar(n / 10)];
    }
  }

  /** The key a commune is looked up under among the ONS rows: that of the reviewed alias, or else of its own name. */
  ghost predicate LookedUpAs(c: Commune, t: Tables, key: string) {
    key == if t.nameKey(c.name) in t.onsAliases then t.nameKey(t.onsAliases[t.nameKey(c.name)]) else t.nameKey(c.name)
  }

  /** `id` is the one row with the key, of the wilaya if one is given. */
  ghost predicate OneRow(ons: map<string, Ons>, t: Tables, wilaya: Option<nat>, key: string, id: string) {
    id in ons && HasKey(ons[id], t, wilaya, key) && forall o :: o in ons && HasKey(ons[o], t, wilaya, key) ==> o == id
  }

  predicate HasKey(row: Ons, t: Tables, wilaya: Option<nat>, key: string) {
    t.nameKey(row.name) == key && (wilaya.None? || row.wilaya == wilaya.value)
  }

  /** Which ONS code a commune has. */
  ghost predicate CodeRule(c: Commune, ons: map<string, Ons>, t: Tables, id: string) {
    if 49 <= c.wilaya <= 58 then exists key :: LookedUpAs(c, t, key) && OneRow(ons, t, Some(c.wilaya), key, id)
    else
      && c.postTail.Some?
      && var wilaya := if c.wilaya in t.mother then t.mother[c.wilaya] else c.wilaya;
         if exists code :: code in ons && Composed(code, wilaya, c.postTail.value)
         then id in ons && Composed(id, wilaya, c.postTail.value)
         else exists key :: LookedUpAs(c, t, key) && OneRow(ons, t, None, key, id)
  }

  lemma OnlyIff(ids: set<string>, id: string)
    ensures Only(ids) == Some(id) <==> ids == {id}
  {
    if Only(ids) == Some(id) {
      assert ids == {id};
    }
  }

  lemma SingleIff(ids: set<string>, id: string)
    ensures ids == {id} <==> id in ids && forall o :: o in ids ==> o == id
  {
  }

  lemma OneRowIff(ons: map<string, Ons>, t: Tables, wilaya: nat, key: string, id: string)
    ensures OneRow(ons, t, Some(wilaya), key, id) <==> InWilaya(ons, t, wilaya, key) == {id}
    ensures OneRow(ons, t, None, key, id) <==> Named(ons, t, key) == {id}
  {
    SingleIff(InWilaya(ons, t, wilaya, key), id);
    SingleIff(Named(ons, t, key), id);
    forall o | o in ons
      ensures o in InWilaya(ons, t, wilaya, key) <==> ons[o].wilaya == wilaya && t.nameKey(ons[o].name) == key
      ensures o in Named(ons, t, key) <==> t.nameKey(ons[o].name) == key
    {
    }
  }

  /** The code found is the one the rule names; where there is none, the rule names none. */
  lemma OnsCodeIff(c: Commune, ons: map<string, Ons>, t: Tables, id: string)
    ensures OnsCode(c, ons, t) == Some(id) <==> CodeRule(c, ons, t, id)
  {
    var key := OnsKey(c, t);
    assert LookedUpAs(c, t, key);
    OneRowIff(ons, t, c.wilaya, key, id);
    OnlyIff(InWilaya(ons, t, c.wilaya, key), id);
    OnlyIff(Named(ons, t, key), id);
    if c.postTail.Some? {
      var wilaya := if c.wilaya in t.mother then t.mother[c.wilaya] else c.wilaya;
      var code := Two(wilaya) + Two(c.postTail.value);
      ComposedIff(code, wilaya, c.postTail.value);
      forall s | s in ons || s == id
        ensures Composed(s, wilaya, c.postTail.value) <==> s == code
      {
        ComposedIff(s, wilaya, c.postTail.value);
      }
    }
  }

  /** The legal spelling of a commune's name among those of its wilaya: that of a reviewed alias, or else the last one
    * with the same key. */
  ghost predicate SpeltAs(c: Commune, names: seq<string>, t: Tables, name: string) {
    var key := t.nameKey(c.name);
    if key in t.officialAliases && t.officialAliases[key] in names then name == t.officialAliases[key]
    else LastWithKey(names, t.nameKey, key, name)
  }

  ghost predicate LastWithKey(names: seq<string>, nameKey: string -> string, key: string, name: string) {
    exists i :: 0 <= i < |names| && names[i] == name && nameKey(name) == key &&
      forall j :: i < j < |names| ==> nameKey(names[j]) != key
  }

  ghost predicate HasList(law: seq<Assignment>, code: nat) {
    exists w :: 0 <= w < |law| && law[w].code == code
  }

  /** Which name a commune gets: its own where the law has no list for its wilaya. */
  ghost predicate NameRule(c: Commune, law: seq<Assignment>, t: Tables, name: string) {
    if HasList(law, c.wilaya)
    then exists w :: 0 <= w < |law| && law[w].code == c.wilaya && SpeltAs(c, law[w].names, t, name)
    else name == c.name
  }

  lemma {:induction false} ByKeyLast(names: seq<string>, nameKey: string -> string, key: string, name: string)
    ensures key in ByKey(names, nameKey) && ByKey(names, nameKey)[key] == name <==>
      LastWithKey(names, nameKey, key, name)
    decreases |names|
  {
    if names != [] {
      var n := |names| - 1;
      ByKeyLast(names[..n], nameKey, key, name);
      LastOneMore(names, nameKey, key, name);
    }
  }

  lemma LastOneMore(names: seq<string>, nameKey: string -> string, key: string, name: string)
    requires names != []
    ensures LastWithKey(names, nameKey, key, name) <==>
      if nameKey(names[|names| - 1]) == key then names[|names| - 1] == name
      else LastWithKey(names[..|names| - 1], nameKey, key, name)
  {
    var n := |names| - 1;
    var shorter := names[..n];
    assert forall i :: 0 <= i < n ==> shorter[i] == names[i];
    if nameKey(names[n]) != key && LastWithKey(shorter, nameKey, key, name) {
      var i :| 0 <= i < n && shorter[i] == name && nameKey(name) == key &&
        forall j :: i < j < n ==> nameKey(shorter[j]) != key;
      assert names[i] == name && forall j :: i < j < |names| ==> nameKey(names[j]) != key;
    }
  }

  lemma LegalNameIff(c: Commune, law: Law, t: Tables, name: string)
    ensures LegalName(c, law, t) == Some(name) <==> NameRule(c, law, t, name)
  {
    var names := NamesOf(law, c.wilaya);
    if names.Some? {
      var w :| 0 <= w < |law| && law[w] == Assignment(c.wilaya, names.value);
      ByKeyLast(names.value, t.nameKey, t.nameKey(c.name), name);
      assert HasList(law, c.wilaya);
    }
  }

  // ----------------------------------------------------------------------
  // The passes
  // ----------------------------------------------------------------------

  type ByWilaya = map<(nat, string), string>

  type ByName = map<string, set<string>>

  /** The two indexes hold the rows seen so far and nothing else. */
  ghost predicate Indexed(seen: map<string, Ons>, t: Tables, byWilaya: ByWilaya, byName: ByName) {
    && (forall id :: id in seen ==> KeyIn(seen[id], t) in byWilaya && byWilaya[KeyIn(seen[id], t)] == id)
    && (forall key :: key in byWilaya ==> byWilaya[key] in seen && KeyIn(seen[byWilaya[key]], t) == key)
    && (forall id :: id in seen ==> t.nameKey(seen[id].name) in byName && id in byName[t.nameKey(seen[id].name)])
    && (forall k, id :: k in byName && id in byName[k] ==> id in seen && t.nameKey(seen[id].name) == k)
  }

  lemma IndexMore(seen: map<string, Ons>, t: Tables, byWilaya: ByWilaya, byName: ByName, id: string, row: Ons)
    requires Indexed(seen, t, byWilaya, byName) && id !in seen && KeyIn(row, t) !in byWilaya
    ensures var key := KeyIn(row, t);
      Indexed(seen[id := row], t, byWilaya[key := id],
              byName[key.1 := (if key.1 in byName then byName[key.1] else {}) + {id}])
  {
  }

  lemma IndexedUnique(ons: map<string, Ons>, t: Tables, byWilaya: ByWilaya, byName: ByName)
    requires Indexed(ons, t, byWilaya, byName)
    ensures OnsNamesUnique(ons, t)
  {
  }

  lemma IndexClash(ons: map<string, Ons>, seen: map<string, Ons>, t: Tables, byWilaya: ByWilaya, byName: ByName,
                   id: string)
    requires Indexed(seen, t, byWilaya, byName) && seen == Part(ons, seen.Keys)
    requires id in ons && id !in seen && KeyIn(ons[id], t) in byWilaya
    ensures !OnsNamesUnique(ons, t)
  {
  }

  function Part(ons: map<string, Ons>, ids: set<string>): map<string, Ons> {
    map id | id in ons && id in ids :: ons[id]
  }

  lemma PartStep(ons: map<string, Ons>, ids: set<string>, id: string)
    requires ids <= ons.Keys && id in ids
    ensures Part(ons, ons.Keys - (ids - {id})) == Part(ons, ons.Keys - ids)[id := ons[id]]
    ensures id !in Part(ons, ons.Keys - ids)
    ensures Part(ons, ons.Keys - ids).Keys == ons.Keys - ids
  {
  }

  /** The two indexes over the ONS rows; not `ok` is the duplicate name within one wilaya. */
  method IndexOns(ons: map<string, Ons>, t: Tables) returns (ok: bool, byWilaya: ByWilaya, byName: ByName)
    ensures ok <==> OnsNamesUnique(ons, t)
    ensures ok ==> Indexed(ons, t, byWilaya, byName)
  {
    byWilaya, byName := map[], map[];
    var ids := ons.Keys;
    while ids != {}
      invariant ids <= ons.Keys && Indexed(Part(ons, ons.Keys - ids), t, byWilaya, byName)
      decreases |ids|
    {
      var id :| id in ids;
      var key := KeyIn(ons[id], t);
      PartStep(ons, ids, id);
      if key in byWilaya {
        IndexClash(ons, Part(ons, ons.Keys - ids), t, byWilaya, byName, id);
        return false, byWilaya, byName;
      }
      IndexMore(Part(ons, ons.Keys - ids), t, byWilaya, byName, id, ons[id]);
      ids := ids - {id};
      byWilaya := byWilaya[key := id];
      byName := byName[key.1 := (if key.1 in byName then byName[key.1] else {}) + {id}];
    }
    assert ons.Keys - ids == ons.Keys;
    assert Part(ons, ons.Keys) == ons;
    IndexedUnique(ons, t, byWilaya, byName);
    return true, byWilaya, byName;
  }

  /** What a lookup in the indexes finds. */
  lemma IndexFinds(ons: map<string, Ons>, t: Tables, byWilaya: ByWilaya, byName: ByName, wilaya: nat, key: string)
    requires Indexed(ons, t, byWilaya, byName)
    ensures Only(InWilaya(ons, t, wilaya, key)) ==
      if (wilaya, key) in byWilaya then Some(byWilaya[(wilaya, key)]) else None
    ensures Named(ons, t, key) == if key in byName then byName[key] else {}
  {
    if (wilaya, key) in byWilaya {
      assert InWilaya(ons, t, wilaya, key) == {byWilaya[(wilaya, key)]};
    } else {
      assert InWilaya(ons, t, wilaya, key) == {};
    }
  }

  method FindOnsCode(c: Commune, ons: map<string, Ons>, t: Tables, byWilaya: ByWilaya, byName: ByName)
    returns (id: Option<string>)
    requires Indexed(ons, t, byWilaya, byName)
    ensures id == OnsCode(c, ons, t)
    ensures id.Some? ==> CodeRule(c, ons, t, id.value)
    ensures id.None? ==> forall code :: !CodeRule(c, ons, t, code)
  {
    forall code
      ensures OnsCode(c, ons, t) == Some(code) <==> CodeRule(c, ons, t, code)
    {
      OnsCodeIff(c, ons, t, code);
    }
    var key := OnsKey(c, t);
    IndexFinds(ons, t, byWilaya, byName, c.wilaya, key);
    if 49 <= c.wilaya <= 58 {
      return if (c.wilaya, key) in byWilaya then Some(byWilaya[(c.wilaya, key)]) else None;
    }
    if c.postTail.None? {
      return None;
    }
    var code := Two(if c.wilaya in t.mother then t.mother[c.wilaya] else c.wilaya) + Two(c.postTail.value);
    if code in ons {
      return Some(code);
    }
    var matches := if key in byName then byName[key] else {};
    if |matches| != 1 {
      return None;
    }
    var found :| found in matches;
    assert |matches - {found}| == 0;
    assert matches == {found};
    return Some(found);
  }

  method ResolveCommune(c: Commune, ons: map<string, Ons>, law: seq<Assignment>, t: Tables,
                        byWilaya: ByWilaya, byName: ByName)
    returns (r: Option<Resolved>)
    requires Indexed(ons, t, byWilaya, byName)
    ensures r == Resolve(c, ons, law, t)
  {
    var name := LegalName(c, law, t);
    if name.None? {
      return None;
    }
    var id := FindOnsCode(c, ons, t, byWilaya, byName);
    if id.None? {
      return None;
    }
    var parent := if NamesOf(law, c.wilaya).Some? then c.wilaya else ons[id.value].wilaya;
    return Some(Resolved(id.value, name.value, parent));
  }

  /** What the loop has appended for the first communes. */
  ghost predicate Emitted(communes: seq<Commune>, rows: seq<Resolved>, start: seq<Place>, places: seq<Place>,
                          startNames: seq<AlternateName>, names: seq<AlternateName>, consumed: set<string>)
  {
    && |rows| <= |communes|
    && consumed == Ids(rows)
    && places == start + Places(rows)
    && names == startNames + Arabic(communes, rows)
  }

  lemma EmittedStep(communes: seq<Commune>, rows: seq<Resolved>, start: seq<Place>, places: seq<Place>,
                    startNames: seq<AlternateName>, names: seq<AlternateName>, consumed: set<string>, r: Resolved)
    requires |rows| < |communes| && Emitted(communes, rows, start, places, startNames, names, consumed)
    ensures Emitted(communes, rows + [r], start, places + [CommunePlace(r)], startNames,
                    names + CommuneArabic(communes[|rows|], r.id), consumed + {r.id})
  {
  }

  /** One commune: its legal name, its ONS code, which no earlier commune may have, and its rows. */
  method ReconcileOne(m: Manifest, c: Commune, ons: map<string, Ons>, law: seq<Assignment>, t: Tables,
                      byWilaya: ByWilaya, byName: ByName, consumed: set<string>)
    returns (r: Option<Resolved>)
    requires Indexed(ons, t, byWilaya, byName)
    modifies m`places, m`alternateNames
    ensures var found := Resolve(c, ons, law, t); r == if found.Some? && found.value.id in consumed then None else found
    ensures r.Some? ==>
      && m.places == old(m.places) + [CommunePlace(r.value)]
      && m.alternateNames == old(m.alternateNames) + CommuneArabic(c, r.value.id)
  {
    r := ResolveCommune(c, ons, law, t, byWilaya, byName);
    if r.None? || r.value.id in consumed {
      return None;
    }
    m.places := m.places + [CommunePlace(r.value)];
    m.alternateNames := m.alternateNames + CommuneArabic(c, r.value.id);
  }

  /** The loop over the communes. */
  method ReconcileCommunes(m: Manifest, communes: seq<Commune>, ons: map<string, Ons>, law: seq<Assignment>, t: Tables,
                           byWilaya: ByWilaya, byName: ByName)
    returns (ok: bool, consumed: set<string>)
    requires Indexed(ons, t, byWilaya, byName)
    modifies m`places, m`alternateNames
    ensures ok <==> Rows(communes, ons, law, t).Some?
    ensures ok ==> Emitted(communes, Rows(communes, ons, law, t).value, old(m.places), m.places,
                           old(m.alternateNames), m.alternateNames, consumed)
  {
    ghost var found := Resolutions(communes, ons, law, t);
    ghost var rows: seq<Resolved> := [];
    consumed := {};
    for i := 0 to |communes|
      invariant Reconciled(found, i) == Some(rows)
      invariant Emitted(communes, rows, old(m.places), m.places, old(m.alternateNames), m.alternateNames, consumed)
    {
      ghost var places, names := m.places, m.alternateNames;
      var r := ReconcileOne(m, communes[i], ons, law, t, byWilaya, byName, consumed);
      if r.None? {
        ReconciledStops(found, i + 1);
        return false, consumed;
      }
      EmittedStep(communes, rows, old(m.places), places, old(m.alternateNames), names, consumed, r.value);
      consumed := consumed + {r.value.id};
      rows := rows + [r.value];
    }
    return true, consumed;
  }

  lemma {:induction false} ReconciledStops(found: seq<Option<Resolved>>, i: nat)
    requires i <= |found| && Reconciled(found, i).None?
    ensures Reconciled(found, |found|).None?
    decreases |found| - i
  {
    if i < |found| {
      ReconciledStops(found, i + 1);
    }
  }

  lemma IdsStep(rows: seq<Resolved>, r: Resolved)
    ensures Ids(rows + [r]) == Ids(rows) + {r.id}
  {
  }

  /** `parse_algeria` on parsed rows; not `ok` is its ValueError. */
  method ParseAlgeria(m: Manifest, wilayas: seq<Wilaya>, communes: seq<Commune>, ons: map<string, Ons>, law: Law,
                      t: Tables)
    returns (ok: bool)
    modifies m`places, m`alternateNames
    ensures ok <==> Accepts(old(m.places), wilayas, communes, ons, law, t)
    ensures ok ==> |wilayas| == 69 && |communes| == 1541
    ensures ok ==>
      var rows, named := Rows(communes, ons, law, t).value, Renamed(wilayas, law, |law|).value;
      && m.places == old(m.places) + WilayaPlaces(named) + Places(rows)
      && m.alternateNames == old(m.alternateNames) + WilayaNames(named, |named|) + Arabic(communes, rows)
  {
    if |wilayas| != WILAYAS || |communes| != COMMUNES {
      return false;
    }
    var renamed := RenameWilayas(wilayas, law);
    if renamed.None? {
      return false;
    }
    var indexed, byWilaya, byName := IndexOns(ons, t);
    if !indexed {
      return false;
    }
    EmitWilayas(m, renamed.value);
    var reconciled, consumed := ReconcileCommunes(m, communes, ons, law, t, byWilaya, byName);
    if !reconciled || consumed != ons.Keys {
      return false;
    }
    ok := MatchesLaw(m.places, law);
  }

  method RenameWilayas(wilayas: seq<Wilaya>, law: seq<Assignment>) returns (r: Option<seq<Wilaya>>)
    ensures r == Renamed(wilayas, law, |law|)
  {
    var named := wilayas;
    for i := 0 to |law|
      invariant Renamed(wilayas, law, i) == Some(named)
    {
      var at := FirstWith(named, law[i].code);
      if at.None? || law[i].names == [] {
        RenamedStops(wilayas, law, i + 1);
        return None;
      }
      RenamedOneMore(wilayas, law, i, named, at.value);
      named := named[at.value := named[at.value].(name := law[i].names[0])];
    }
    return Some(named);
  }

  lemma RenamedOneMore(wilayas: seq<Wilaya>, law: seq<Assignment>, i: nat, named: seq<Wilaya>, at: nat)
    requires i < |law| && Renamed(wilayas, law, i) == Some(named) && FirstWith(named, law[i].code) == Some(at)
    requires law[i].names != []
    ensures Renamed(wilayas, law, i + 1) == Some(named[at := named[at].(name := law[i].names[0])])
  {
  }

  lemma {:induction false} RenamedStops(wilayas: seq<Wilaya>, law: seq<Assignment>, i: nat)
    requires i <= |law| && Renamed(wilayas, law, i).None?
    ensures Renamed(wilayas, law, |law|).None?
    decreases |law| - i
  {
    if i < |law| {
      RenamedStops(wilayas, law, i + 1);
    }
  }

  method EmitWilayas(m: Manifest, wilayas: seq<Wilaya>)
    modifies m`places, m`alternateNames
    ensures m.places == old(m.places) + WilayaPlaces(wilayas)
    ensures m.alternateNames == old(m.alternateNames) + WilayaNames(wilayas, |wilayas|)
  {
    ghost var start, startNames := m.places, m.alternateNames;
    ghost var places: seq<Place>, names: seq<AlternateName> := [], [];
    for i := 0 to |wilayas|
      invariant places == WilayaPlaces(wilayas)[..i] && m.places == start + places
      invariant names == WilayaNames(wilayas, i) && m.alternateNames == startNames + names
    {
      m.places := m.places + [WilayaPlace(wilayas[i])];
      places := places + [WilayaPlace(wilayas[i])];
      m.alternateNames := m.alternateNames + WilayaArabic(wilayas[i]);
      names := names + WilayaArabic(wilayas[i]);
    }
  }

  /** The closing comparison of each legal list with the names imported under its wilaya. */
  method MatchesLaw(places: seq<Place>, law: seq<Assignment>) returns (ok: bool)
    ensures ok <==> forall i :: 0 <= i < |law| ==> Imported(places, law[i].code) == NameSet(law[i].names)
  {
    for i := 0 to |law|
      invariant forall k :: 0 <= k < i ==> Imported(places, law[k].code) == NameSet(law[k].names)
    {
      if Imported(places, law[i].code) != NameSet(law[i].names) {
        return false;
      }
    }
    return true;
  }

  // ----------------------------------------------------------------------
  // What the parser's return means
  // ----------------------------------------------------------------------

  /** Commune `n` resolves, and to a code that none before it resolves to. */
  ghost predicate FreshAt(found: seq<Option<Resolved>>, n: nat)
    requires n < |found|
  {
    && found[n].Some?
    && forall i :: 0 <= i < n && found[i].Some? ==> found[i].value.id != found[n].value.id
  }

  lemma {:induction false} ReconciledRows(found: seq<Option<Resolved>>, n: nat)
    requires n <= |found| && Reconciled(found, n).Some?
    ensures forall i :: 0 <= i < n ==> found[i] == Some(Reconciled(found, n).value[i])
  {
    if n > 0 {
      ReconciledRows(found, n - 1);
    }
  }

  lemma InIds(rows: seq<Resolved>, id: string)
    ensures id in Ids(rows) <==> exists i :: 0 <= i < |rows| && rows[i].id == id
  {
  }

  /** The communes reconcile exactly when each one resolves, and no two to the same code. */
  lemma {:induction false} ReconciledIff(found: seq<Option<Resolved>>, n: nat)
    requires n <= |found|
    ensures Reconciled(found, n).Some? <==> forall i {:trigger FreshAt(found, i)} :: 0 <= i < n ==> FreshAt(found, i)
  {
    if n > 0 {
      ReconciledIff(found, n - 1);
      if Reconciled(found, n - 1).Some? && found[n - 1].Some? {
        ReconciledRows(found, n - 1);
        InIds(Reconciled(found, n - 1).value, found[n - 1].value.id);
      }
      assert Reconciled(found, n).Some? <==> Reconciled(found, n - 1).Some? && FreshAt(found, n - 1);
    }
  }

  lemma DistinctIds(communes: seq<Commune>, ons: map<string, Ons>, law: seq<Assignment>, t: Tables)
    requires Rows(communes, ons, law, t).Some?
    ensures var rows := Rows(communes, ons, law, t).value;
      && (forall i, k :: 0 <= i < k < |rows| ==> rows[i].id != rows[k].id)
      && Ids(rows) <= ons.Keys
  {
    var found := Resolutions(communes, ons, law, t);
    var rows := Rows(communes, ons, law, t).value;
    ReconciledIff(found, |found|);
    ReconciledRows(found, |found|);
    forall i | 0 <= i < |rows|
      ensures rows[i].id in ons
    {
      assert found[i] == Resolve(communes[i], ons, law, t);
    }
    forall i, k | 0 <= i < k < |rows|
      ensures rows[i].id != rows[k].id
    {
      assert FreshAt(found, k) && found[i].Some?;
    }
  }

  /** Communes and ONS codes are in one-to-one correspondence: each code is the source id of the place
    * of exactly one commune. */
  lemma OneToOne(start: seq<Place>, wilayas: seq<Wilaya>, communes: seq<Commune>, ons: map<string, Ons>,
                 law: seq<Assignment>, t: Tables, code: string)
    requires Accepts(start, wilayas, communes, ons, law, t) && code in ons
    ensures var rows := Rows(communes, ons, law, t).value;
      exists i :: 0 <= i < |communes| && PlaceKey(Places(rows)[i]) == (COMMUNE_SOURCE, code) &&
        forall k :: 0 <= k < |communes| && PlaceKey(Places(rows)[k]) == (COMMUNE_SOURCE, code) ==> k == i
  {
    var rows := Rows(communes, ons, law, t).value;
    DistinctIds(communes, ons, law, t);
    assert code in Ids(rows);
    var r :| r in rows && r.id == code;
    var i :| 0 <= i < |rows| && rows[i] == r;
    assert PlaceKey(Places(rows)[i]) == (COMMUNE_SOURCE, code);
  }

  /** Every commune is a locality of Algeria under the code, the name and the wilaya that the rules give it. */
  lemma CommunePlaced(communes: seq<Commune>, ons: map<string, Ons>, law: Law, t: Tables, i: nat)
    requires Rows(communes, ons, law, t).Some? && i < |communes|
    ensures var p, c := Places(Rows(communes, ons, law, t).value)[i], communes[i];
      && p.source == "algeria-commune" && CodeRule(c, ons, t, p.sourceId) && p.sourceId in ons
      && p.country == "DZ" && p.placeType == "locality" && NameRule(c, law, t, p.name)
      && p.parentSource == Some("algeria-wilaya") && p.parentId.Some?
      && IsTwo(p.parentId.value, if HasList(law, c.wilaya) then c.wilaya else ons[p.sourceId].wilaya)
  {
    var found, r := Resolutions(communes, ons, law, t), Rows(communes, ons, law, t).value[i];
    ReconciledRows(found, |communes|);
    assert found[i] == Resolve(communes[i], ons, law, t) == Some(r);
    OnsCodeIff(communes[i], ons, t, r.id);
    LegalNameIff(communes[i], law, t, r.name);
    TwoIsTwo(r.parent);
  }

  /** Every wilaya is a region under its two-digit code. */
  lemma WilayaPlaced(wilayas: seq<Wilaya>, i: nat)
    requires i < |wilayas|
    ensures var p := WilayaPlaces(wilayas)[i];
      && p.source == "algeria-wilaya" && IsTwo(p.sourceId, wilayas[i].code)
      && p.country == "DZ" && p.placeType == "admin_region" && p.name == wilayas[i].name && p.parentId == None
  {
    TwoIsTwo(wilayas[i].code);
  }

  predicate ArabicRow(a: AlternateName, source: string, id: string, name: string, prefix: string) {
    && name != "" && a.name == name && a.language == "ar"
    && a.placeSource == Some(source) && a.placeId == Some(id)
    && a.source == Some("algeria-coordinate-supplement-ar") && a.sourceId == Some(prefix + id + ":ar")
  }

  /** The Arabic names are those of the communes that have one, for their codes. */
  lemma {:induction false} ArabicMeaning(communes: seq<Commune>, rows: seq<Resolved>, a: AlternateName)
    requires |rows| <= |communes|
    ensures a in Arabic(communes, rows) <==>
      exists i :: 0 <= i < |rows| && ArabicRow(a, "algeria-commune", rows[i].id, communes[i].nameAr, "commune:")
    decreases |rows|
  {
    if rows != [] {
      ArabicMeaning(communes, rows[..|rows| - 1], a);
    }
  }

  lemma WilayaArabicIs(w: Wilaya, a: AlternateName)
    ensures a in WilayaArabic(w) <==> ArabicRow(a, "algeria-wilaya", Two(w.code), w.nameAr, "wilaya:")
  {
  }

  lemma {:induction false} WilayaNamesMeaning(wilayas: seq<Wilaya>, n: nat, a: AlternateName)
    requires n <= |wilayas|
    ensures a in WilayaNames(wilayas, n) <==>
      exists i :: 0 <= i < n && ArabicRow(a, "algeria-wilaya", Two(wilayas[i].code), wilayas[i].nameAr, "wilaya:")
  {
    if n > 0 {
      WilayaNamesMeaning(wilayas, n - 1, a);
      WilayaArabicIs(wilayas[n - 1], a);
    }
  }

  lemma {:induction false} IdsCount(rows: seq<Resolved>)
    requires forall i, k :: 0 <= i < k < |rows| ==> rows[i].id != rows[k].id
    ensures |Ids(rows)| == |rows|
    decreases |rows|
  {
    if rows != [] {
      var n := |rows| - 1;
      var before := rows[..n];
      IdsCount(before);
      InIds(before, rows[n].id);
      IdsStep(before, rows[n]);
      assert before + [rows[n]] == rows;
    }
  }

  lemma SubsetOfSameSize(a: set<string>, b: set<string>)
    requires a <= b && |a| == |b|
    ensures a == b
  {
    assert |b - a| == 0;
  }

  /** With as many communes as ONS codes, the check that every code was consumed cannot fail. */
  lemma EveryCodeConsumed(communes: seq<Commune>, ons: map<string, Ons>, law: seq<Assignment>, t: Tables)
    requires Rows(communes, ons, law, t).Some? && |ons| == |communes|
    ensures Ids(Rows(communes, ons, law, t).value) == ons.Keys
  {
    var rows := Rows(communes, ons, law, t).value;
    DistinctIds(communes, ons, law, t);
    IdsCount(rows);
    SubsetOfSameSize(Ids(rows), ons.Keys);
  }

  lemma TwoInjective(a: nat, b: nat)
    requires Two(a) == Two(b)
    ensures a == b
  {
    DigitsBack(a);
    DigitsBack(b);
    if a < 10 {
      assert Two(a)[0] == '0';
      DigitsLead(b);
      assert Two(a)[1..] == Digits(a) && Two(b)[1..] == Digits(b);
    } else if b < 10 {
      DigitsLead(a);
    }
  }

  function Under(rows: seq<Resolved>, wilaya: nat): set<string> {
    set r | r in rows && r.parent == wilaya :: r.name
  }

  /** For each wilaya in the law's lists, the names of the communes placed under it are the legal list, and every
    * supplement commune of that wilaya is placed under it with its legal name. */
  lemma LegalLists(start: seq<Place>, wilayas: seq<Wilaya>, communes: seq<Commune>, ons: map<string, Ons>,
                   law: Law, t: Tables, w: nat)
    requires Accepts(start, wilayas, communes, ons, law, t) && w < |law|
    requires forall p :: p in start ==> p.source != COMMUNE_SOURCE
    ensures var rows := Rows(communes, ons, law, t).value;
      && Under(rows, law[w].code) == NameSet(law[w].names)
      && forall i :: 0 <= i < |communes| && communes[i].wilaya == law[w].code ==>
           rows[i].parent == law[w].code && rows[i].name in law[w].names
  {
    var rows := Rows(communes, ons, law, t).value;
    var named := WilayaPlaces(Renamed(wilayas, law, |law|).value);
    ImportedUnder(start, named, rows, law[w].code);
    forall i | 0 <= i < |communes| && communes[i].wilaya == law[w].code
      ensures rows[i].parent == law[w].code && rows[i].name in law[w].names
    {
      ReconciledRows(Resolutions(communes, ons, law, t), |communes|);
      assert Some(rows[i]) == Resolve(communes[i], ons, law, t);
      NamesOfFound(law, w);
    }
  }

  lemma {:induction false} NamesOfFound(law: Law, w: nat)
    requires w < |law|
    ensures NamesOf(law, law[w].code) == Some(law[w].names)
  {
  }

  lemma ImportedUnder(start: seq<Place>, named: seq<Place>, rows: seq<Resolved>, wilaya: nat)
    requires forall p :: p in start || p in named ==> p.source != COMMUNE_SOURCE
    ensures Imported(start + named + Places(rows), wilaya) == Under(rows, wilaya)
  {
    var places := start + named + Places(rows);
    forall name | name in Imported(places, wilaya)
      ensures name in Under(rows, wilaya)
    {
      var p :| p in places && p.source == COMMUNE_SOURCE && p.parentId == Some(Two(wilaya)) && p.name == name;
      assert p in Places(rows);
      var i :| 0 <= i < |rows| && Places(rows)[i] == p;
      TwoInjective(rows[i].parent, wilaya);
      assert rows[i] in rows;
    }
    forall name | name in Under(rows, wilaya)
      ensures name in Imported(places, wilaya)
    {
      var r :| r in rows && r.parent == wilaya && r.name == name;
      var i :| 0 <= i < |rows| && rows[i] == r;
      assert Places(rows)[i] == CommunePlace(r);
      assert places[|start| + |named| + i] == CommunePlace(r);
    }
  }

  ghost predicate HasWilaya(wilayas: seq<Wilaya>, a: Assignment) {
    a.names != [] && exists k :: 0 <= k < |wilayas| && wilayas[k].code == a.code
  }

  /** The wilaya step goes through exactly when every legal list is nonempty and has its wilaya. */
  lemma {:induction false} RenamedIff(wilayas: seq<Wilaya>, law: seq<Assignment>, n: nat)
    requires n <= |law|
    ensures Renamed(wilayas, law, n).Some? <==>
      forall i {:trigger HasWilaya(wilayas, law[i])} :: 0 <= i < n ==> HasWilaya(wilayas, law[i])
  {
    if n > 0 {
      RenamedIff(wilayas, law, n - 1);
      var before := Renamed(wilayas, law, n - 1);
      if before.Some? {
        FoundIff(wilayas, before.value, law[n - 1]);
      }
    }
  }

  lemma FoundIff(wilayas: seq<Wilaya>, named: seq<Wilaya>, a: Assignment)
    requires |named| == |wilayas| && forall k :: 0 <= k < |wilayas| ==> named[k].code == wilayas[k].code
    ensures FirstWith(named, a.code).Some? && a.names != [] <==> HasWilaya(wilayas, a)
  {
  }

  lemma {:induction false} FirstWithSame(a: seq<Wilaya>, b: seq<Wilaya>, code: nat)
    requires |a| == |b| && forall k :: 0 <= k < |a| ==> a[k].code == b[k].code
    ensures FirstWith(a, code) == FirstWith(b, code)
    decreases |a|
  {
    if a != [] {
      FirstWithSame(a[..|a| - 1], b[..|b| - 1], code);
    }
  }

  /** The first wilaya under each legal list carries the name the list starts with; only such wilayas are renamed. */
  lemma {:induction false} RenamedNames(wilayas: seq<Wilaya>, law: Law, n: nat, k: nat)
    requires n <= |law| && k < |wilayas| && Renamed(wilayas, law, n).Some?
    ensures var named := Renamed(wilayas, law, n).value;
      && (forall i :: 0 <= i < n && FirstWith(wilayas, law[i].code) == Some(k) ==> named[k].name == law[i].names[0])
      && ((forall i :: 0 <= i < n ==> FirstWith(wilayas, law[i].code) != Some(k)) ==> named[k] == wilayas[k])
  {
    if n > 0 {
      RenamedNames(wilayas, law, n - 1, k);
      FirstWithSame(wilayas, Renamed(wilayas, law, n - 1).value, law[n - 1].code);
    }
  }
}
