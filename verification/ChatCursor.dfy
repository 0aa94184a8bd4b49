/** Reading the pagination parameters: `_parse_nonnegative_id` and `_read_options`. */
module ChatCursor {
  import opened Wrappers
  import opened Decimal
  import opened ChatPages

  const MAX_ID: nat := 9_223_372_036_854_775_807

  function ParseId(text: string, allowZero: bool): Option<nat> {
    if |text| < 1 || |text| > 19 || !AllDigits(text) then None
    else
      var parsed := Value(text);
      if parsed > MAX_ID || (parsed == 0 && !allowZero) then None else Some(parsed)
  }

  /** Every id the database can hold is read back from its decimal form; no other number is accepted. */
  lemma ParsePrinted(id: nat, allowZero: bool)
    ensures ParseId(Digits(id), allowZero) == if id <= MAX_ID && (id > 0 || allowZero) then Some(id) else None
  {
    DigitsBack(id);
    DigitsLength(id, 19);
    Nineteen();
  }

  lemma Nineteen()
    ensures Pow10(19) == 10_000_000_000_000_000_000
  {
    assert Pow10(4) == 10_000 by { assert Pow10(2) == 100; }
    assert Pow10(8) == 100_000_000 by { assert Pow10(6) == 1_000_000; }
    assert Pow10(12) == 1_000_000_000_000 by { assert Pow10(10) == 10_000_000_000; }
    assert Pow10(16) == 10_000_000_000_000_000 by { assert Pow10(14) == 100_000_000_000_000; }
    assert Pow10(18) == 1_000_000_000_000_000_000;
  }

  // ----------------------------------------------------------------------
  // Options
  // ----------------------------------------------------------------------

  /** The query string: each name with the values given for it, in order. */
  type Params = map<string, seq<string>>

  datatype BadRequest = Exclusive | WithPage | Repeated(name: string) | BadPageSize | BadLatest | BadId(name: string)

  /** The cursor, or none for the page API, and the page size. */
  datatype Options = Options(cursor: Option<Cursor>, size: nat)

  predicate Given(p: Params, name: string) { name in p && p[name] != [] }

  /** `params.get(name, default)`: the last value. */
  function Last(p: Params, name: string, default: string): string {
    if Given(p, name) then p[name][|p[name]| - 1] else default
  }

  predicate Repeats(p: Params, name: string) { name in p && |p[name]| > 1 }

  function Supplied(p: Params): nat {
    (if Given(p, "latest") then 1 else 0) + (if Given(p, "after_id") then 1 else 0)
        + (if Given(p, "before_id") then 1 else 0)
  }

  function ReadOptions(p: Params): Result<Options, BadRequest> {
    if Supplied(p) > 1 then Err(Exclusive)
    else if Supplied(p) == 1 && Given(p, "page") then Err(WithPage)
    else if Repeats(p, "page_size") then Err(Repeated("page_size"))
    else if Repeats(p, "latest") then Err(Repeated("latest"))
    else if Repeats(p, "after_id") then Err(Repeated("after_id"))
    else if Repeats(p, "before_id") then Err(Repeated("before_id"))
    else
      var size := ParseId(Last(p, "page_size", "50"), false);
      if size.None? || size.value > 200 then Err(BadPageSize)
      else if Given(p, "latest") then
        if Last(p, "latest", "") != "1" then Err(BadLatest) else Ok(Options(Some(Latest), size.value))
      else if Given(p, "after_id") then
        var id := ParseId(Last(p, "after_id", ""), true);
        if id.None? then Err(BadId("after_id")) else Ok(Options(Some(AfterId(id.value)), size.value))
      else if Given(p, "before_id") then
        var id := ParseId(Last(p, "before_id", ""), false);
        if id.None? then Err(BadId("before_id")) else Ok(Options(Some(BeforeId(id.value)), size.value))
      else Ok(Options(None, size.value))
  }

  /** The query a client writes for a keyset read. */
  function Query(cursor: Cursor, size: nat): Params
    requires !cursor.PageNo?
  {
    match cursor
    case Latest => map["latest" := ["1"], "page_size" := [Digits(size)]]
    case BeforeId(id) => map["before_id" := [Digits(id)], "page_size" := [Digits(size)]]
    case AfterId(id) => map["after_id" := [Digits(id)], "page_size" := [Digits(size)]]
  }

  /** What a client writes is what the server reads, whenever the page size is
    * 1 to 200 and the id is one the database can hold (a `before_id` positive);
    * otherwise the request is refused. */
  lemma QueryRead(cursor: Cursor, size: nat)
    requires !cursor.PageNo?
    ensures ReadOptions(Query(cursor, size)) ==
      if !(1 <= size <= 200) then Err(BadPageSize)
      else if cursor.BeforeId? && !(1 <= cursor.id <= MAX_ID) then Err(BadId("before_id"))
      else if cursor.AfterId? && cursor.id > MAX_ID then Err(BadId("after_id"))
      else Ok(Options(Some(cursor), size))
  {
    ParsePrinted(size, false);
    if cursor.BeforeId? {
      ParsePrinted(cursor.id, false);
    }
    if cursor.AfterId? {
      ParsePrinted(cursor.id, true);
    }
  }

  /** Whatever is accepted can be written canonically: a page size of 1 to 200
    * and, for a keyset read, an id in range. */
  lemma AcceptedCanonical(p: Params)
    requires ReadOptions(p).Ok?
    ensures var o := ReadOptions(p).value;
      && 1 <= o.size <= 200
      && (o.cursor.Some? ==> !o.cursor.value.PageNo? && ReadOptions(Query(o.cursor.value, o.size)) == Ok(o))
  {
    var o := ReadOptions(p).value;
    if o.cursor.Some? {
      QueryRead(o.cursor.value, o.size);
    }
  }

  /** The one value of a parameter. */
  predicate Is(p: Params, name: string, value: string) {
    name in p && p[name] == [value]
  }

  predicate Missing(p: Params, name: string) {
    name !in p || p[name] == []
  }

  /** A page size of 1 to 200, given once, or 50 where none is given. */
  ghost predicate SizeAsked(p: Params, size: nat) {
    if Missing(p, "page_size") then size == 50
    else exists text :: Is(p, "page_size", text) && ParseId(text, false) == Some(size) && 1 <= size <= 200
  }

  /** The one cursor given, with nothing that excludes it. */
  ghost predicate CursorAsked(p: Params, cursor: Option<Cursor>) {
    match cursor
    case None => Missing(p, "latest") && Missing(p, "after_id") && Missing(p, "before_id")
    case Some(Latest) =>
      Is(p, "latest", "1") && Missing(p, "after_id") && Missing(p, "before_id") && Missing(p, "page")
    case Some(AfterId(id)) =>
      && Missing(p, "latest") && Missing(p, "before_id") && Missing(p, "page")
      && exists text :: Is(p, "after_id", text) && ParseId(text, true) == Some(id)
    case Some(BeforeId(id)) =>
      && Missing(p, "latest") && Missing(p, "after_id") && Missing(p, "page")
      && exists text :: Is(p, "before_id", text) && ParseId(text, false) == Some(id)
    case Some(PageNo(_)) => false
  }

  lemma FiftyIs()
    ensures ParseId("50", false) == Some(50)
  {
    ParsePrinted(50, false);
    assert Digits(5) == ['5'] && Digits(50) == Digits(5) + ['0'] == "50";
  }

  /** A parameter is missing, repeated, or there with one value. */
  lemma OneValue(p: Params, name: string)
    ensures Missing(p, name) <==> !Given(p, name)
    ensures Missing(p, name) || Repeats(p, name) || Is(p, name, Last(p, name, ""))
    ensures forall value :: Is(p, name, value) ==> !Repeats(p, name) && Last(p, name, "") == value
  {
  }

  lemma SizeIff(p: Params, size: nat)
    ensures SizeAsked(p, size) <==>
      !Repeats(p, "page_size") && ParseId(Last(p, "page_size", "50"), false) == Some(size) && size <= 200
  {
    FiftyIs();
    OneValue(p, "page_size");
    assert !Missing(p, "page_size") ==> Last(p, "page_size", "50") == Last(p, "page_size", "");
    var text := Last(p, "page_size", "");
    assert ParseId(text, false) == Some(size) ==> size >= 1;
  }

  lemma IdIff(p: Params, name: string, allowZero: bool, id: nat)
    requires Given(p, name)
    ensures (exists text :: Is(p, name, text) && ParseId(text, allowZero) == Some(id)) <==>
      !Repeats(p, name) && ParseId(Last(p, name, ""), allowZero) == Some(id)
  {
    OneValue(p, name);
    var text := Last(p, name, "");
    assert !Repeats(p, name) ==> Is(p, name, text);
  }

  /** The options accepted are exactly those: no parameter twice, no two cursors, no cursor with a page number. */
  lemma OptionsIff(p: Params, o: Options)
    ensures ReadOptions(p) == Ok(o) <==> SizeAsked(p, o.size) && CursorAsked(p, o.cursor)
  {
    SizeIff(p, o.size);
    OneValue(p, "latest");
    OneValue(p, "after_id");
    OneValue(p, "before_id");
    OneValue(p, "page");
    if Given(p, "after_id") && o.cursor.Some? && o.cursor.value.AfterId? {
      IdIff(p, "after_id", true, o.cursor.value.id);
    }
    if Given(p, "before_id") && o.cursor.Some? && o.cursor.value.BeforeId? {
      IdIff(p, "before_id", false, o.cursor.value.id);
    }
  }

  /** And these are the refusals of two cursors and of a cursor with a page number. */
  lemma ExclusiveIff(p: Params)
    ensures ReadOptions(p) == Err(Exclusive) <==>
      || (!Missing(p, "latest") && !Missing(p, "after_id"))
      || (!Missing(p, "latest") && !Missing(p, "before_id"))
      || (!Missing(p, "after_id") && !Missing(p, "before_id"))
    ensures ReadOptions(p) == Err(WithPage) <==>
      && ReadOptions(p) != Err(Exclusive) && !Missing(p, "page")
      && !(Missing(p, "latest") && Missing(p, "after_id") && Missing(p, "before_id"))
  {
  }
}
