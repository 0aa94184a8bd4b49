/** `compile_po`: sort the catalogue, lay out the MO file, and what a reader of
  * that file sees. */
module PoCompiler {
  import opened Wrappers
  import opened Utf8
  import opened MoFile

  /** Strictly ascending by code point, the order of Python's `sorted` on distinct strings. */
  ghost predicate Ascending(keys: seq<string>) {
    forall i, j :: 0 <= i < j < |keys| ==> KeyLess(keys[i], keys[j])
  }

  predicate KeyLess(s: string, t: string) {
    Less(Codes(s), Codes(t))
  }

  ghost predicate KeysOf(keys: seq<string>, messages: map<string, string>) {
    Ascending(keys) && forall k :: k in keys <==> k in messages
  }

  function Ids(keys: seq<string>): (ids: seq<Bytes>)
    ensures |ids| == |keys| && forall i :: 0 <= i < |keys| ==> ids[i] == Encode(keys[i])
  {
    seq(|keys|, i requires 0 <= i < |keys| => Encode(keys[i]))
  }

  function Strs(keys: seq<string>, messages: map<string, string>): (strs: seq<Bytes>)
    requires forall k :: k in keys ==> k in messages
    ensures |strs| == |keys| && forall i :: 0 <= i < |keys| ==> strs[i] == Encode(messages[keys[i]])
  {
    seq(|keys|, i requires 0 <= i < |keys| => Encode(messages[keys[i]]))
  }

  // ----------------------------------------------------------------------
  // Sorting
  // ----------------------------------------------------------------------

  lemma {:induction false} CodesInjective(s: string, t: string)
    requires Codes(s) == Codes(t)
    ensures s == t
  {
    if s != [] && t != [] {
      assert Codes(s)[1..] == Codes(s[1..]) && Codes(t)[1..] == Codes(t[1..]);
      CodesInjective(s[1..], t[1..]);
      assert s == [s[0]] + s[1..] && t == [t[0]] + t[1..];
    }
  }

  lemma KeyOrder(s: string, t: string)
    ensures KeyLess(s, t) || s == t || KeyLess(t, s)
    ensures !(KeyLess(s, t) && KeyLess(t, s)) && !KeyLess(s, s)
  {
    LessTotal(Codes(s), Codes(t));
    LessTotal(Codes(s), Codes(s));
    if Codes(s) == Codes(t) {
      CodesInjective(s, t);
    }
  }

  /** Bytes compare as the texts do. */
  lemma ByteOrder(s: string, t: string)
    ensures Less(Encode(s), Encode(t)) == KeyLess(s, t)
    ensures Encode(s) == Encode(t) ==> s == t
  {
    EncodeOrder(s, t);
    DecodeEncoded(s);
    DecodeEncoded(t);
  }

  /** `sorted(messages)` */
  method SortKeys(messages: map<string, string>) returns (keys: seq<string>)
    ensures KeysOf(keys, messages)
  {
    keys := [];
    var rest := messages.Keys;
    while rest != {}
      invariant rest <= messages.Keys
      invariant Ascending(keys)
      invariant forall k :: k in keys <==> k in messages && k !in rest
      decreases rest
    {
      var k :| k in rest;
      keys := InsertKey(keys, k);
      rest := rest - {k};
    }
  }

  method InsertKey(keys: seq<string>, k: string) returns (r: seq<string>)
    requires Ascending(keys) && k !in keys
    ensures Ascending(r) && forall x :: x in r <==> x in keys || x == k
  {
    var i := 0;
    while i < |keys| && KeyLess(keys[i], k)
      invariant 0 <= i <= |keys|
      invariant forall j :: 0 <= j < i ==> KeyLess(keys[j], k)
    {
      i := i + 1;
    }
    forall j | i <= j < |keys|
      ensures KeyLess(k, keys[j])
    {
      KeyOrder(keys[i], k);
      if i < j {
        LessTransitive(Codes(k), Codes(keys[i]), Codes(keys[j]));
      }
    }
    r := keys[..i] + [k] + keys[i..];
    assert keys == keys[..i] + keys[i..];
  }

  // ----------------------------------------------------------------------
  // Writing
  // ----------------------------------------------------------------------

  datatype PackError = ValueTooLarge

  /** The (length, offset) pairs collected for the first `n` strings. */
  ghost predicate Records(offsets: seq<(nat, nat)>, strings: seq<Bytes>, n: nat)
    requires n <= |strings|
  {
    |offsets| == n && forall i {:trigger offsets[i]} :: 0 <= i < n ==> offsets[i] == (|strings[i]|, Offset(strings, i))
  }

  /** The `struct.pack("<2I", ...)` records of one table, or the error of the first that does not fit. */
  method PackTable(entries: seq<(nat, nat)>, base: nat, ghost strings: seq<Bytes>) returns (r: Result<Bytes, PackError>)
    requires Records(entries, strings, |strings|)
    ensures r.Ok? <==> TableFits(strings, base, |strings|)
    ensures r.Ok? ==> r.value == Table(strings, base, |strings|)
  {
    var out: Bytes := [];
    var i := 0;
    while i < |entries|
      invariant 0 <= i <= |entries|
      invariant TableFits(strings, base, i) && out == Table(strings, base, i)
    {
      var length, position := entries[i].0, base + entries[i].1;
      if length >= WORD || position >= WORD {
        assert !EntryFits(strings, base, i);
        return Err(ValueTooLarge);
      }
      assert EntryFits(strings, base, i);
      out := out + (U32(length) + U32(position));
      i := i + 1;
    }
    return Ok(out);
  }

  /** The blob and the records of the first `i` strings. */
  ghost predicate Gathered(strings: seq<Bytes>, i: nat, blob: Bytes, offsets: seq<(nat, nat)>)
    requires i <= |strings|
  {
    blob == Joined(strings, i) && Records(offsets, strings, i)
  }

  /** One string more: its bytes and a NUL after the blob, its length and start after the records. */
  lemma OneString(strings: seq<Bytes>, i: nat, blob: Bytes, offsets: seq<(nat, nat)>, s: Bytes)
    requires i < |strings| && Gathered(strings, i, blob, offsets) && s == strings[i]
    ensures Gathered(strings, i + 1, blob + s + [0], offsets + [(|s|, |blob|)])
  {
  }

  /** The loop of `compile_po` over the sorted keys. */
  method BuildBlobs(keys: seq<string>, messages: map<string, string>)
    returns (ids: Bytes, idOffsets: seq<(nat, nat)>, strings: Bytes, stringOffsets: seq<(nat, nat)>)
    requires forall k :: k in keys ==> k in messages
    ensures ids == Blob(Ids(keys)) && strings == Blob(Strs(keys, messages))
    ensures Records(idOffsets, Ids(keys), |keys|) && Records(stringOffsets, Strs(keys, messages), |keys|)
  {
    ghost var allIds, allStrs := Ids(keys), Strs(keys, messages);
    ids, strings, idOffsets, stringOffsets := [], [], [], [];
    var i := 0;
    while i < |keys|
      invariant 0 <= i <= |keys|
      invariant Gathered(allIds, i, ids, idOffsets)
      invariant Gathered(allStrs, i, strings, stringOffsets)
    {
      OneString(allIds, i, ids, idOffsets, Encode(keys[i]));
      OneString(allStrs, i, strings, stringOffsets, Encode(messages[keys[i]]));
      var encoded := Encode(keys[i]);
      idOffsets := idOffsets + [(|encoded|, |ids|)];
      ids := ids + encoded + [0];
      var translated := Encode(messages[keys[i]]);
      stringOffsets := stringOffsets + [(|translated|, |strings|)];
      strings := strings + translated + [0];
      i := i + 1;
    }
  }

  /** The rest of `compile_po`: positions, header, both tables, both blobs. */
  method Layout(ids: Bytes, idOffsets: seq<(nat, nat)>, strings: Bytes, stringOffsets: seq<(nat, nat)>,
      ghost allIds: seq<Bytes>, ghost allStrs: seq<Bytes>)
    returns (r: Result<Bytes, PackError>)
    requires |allIds| == |allStrs|
    requires ids == Blob(allIds) && Records(idOffsets, allIds, |allIds|)
    requires strings == Blob(allStrs) && Records(stringOffsets, allStrs, |allStrs|)
    ensures r.Ok? <==> Packable(allIds, allStrs)
    ensures r.Ok? ==> r.value == MoBytes(allIds, allStrs)
  {
    var count := |idOffsets|;
    var keyTable := 7 * 4;
    var valueTable := keyTable + count * 8;
    var idsAt := valueTable + count * 8;
    var stringsAt := idsAt + |ids|;
    if valueTable >= WORD {
      return Err(ValueTooLarge);
    }
    var header := U32(MAGIC) + U32(0) + U32(count) + U32(keyTable) + U32(valueTable) + U32(0) + U32(0);
    var first := PackTable(idOffsets, idsAt, allIds);
    if first.Err? {
      return Err(first.error);
    }
    var second := PackTable(stringOffsets, stringsAt, allStrs);
    if second.Err? {
      return Err(second.error);
    }
    r := Ok(header + first.value + second.value + ids + strings);
  }

  /** `compile_po` on a parsed catalogue; `keys` is its sorted key list. */
  method CompilePo(messages: map<string, string>) returns (r: Result<Bytes, PackError>, keys: seq<string>)
    ensures KeysOf(keys, messages)
    ensures r.Ok? <==> Packable(Ids(keys), Strs(keys, messages))
    ensures r.Ok? ==> r.value == MoBytes(Ids(keys), Strs(keys, messages))
  {
    keys := SortKeys(messages);
    var ids, idOffsets, strings, stringOffsets := BuildBlobs(keys, messages);
    r := Layout(ids, idOffsets, strings, stringOffsets, Ids(keys), Strs(keys, messages));
  }

  // ----------------------------------------------------------------------
  // What a reader of the compiled file sees
  // ----------------------------------------------------------------------

  /** String `i` of a table is text `i` of `texts`. */
  ghost predicate Holds(column: Column, texts: seq<string>) {
    forall i :: 0 <= i < |texts| ==> column(i) == Some(Encode(texts[i]))
  }

  function Translations(keys: seq<string>, messages: map<string, string>): (texts: seq<string>)
    requires forall k :: k in keys ==> k in messages
    ensures |texts| == |keys| && forall i :: 0 <= i < |keys| ==> texts[i] == messages[keys[i]]
  {
    seq(|keys|, i requires 0 <= i < |keys| => messages[keys[i]])
  }

  /** The header and the two columns of a readable file. */
  ghost predicate Columns(file: Bytes, keys: seq<string>, texts: seq<string>) {
    && |texts| == |keys|
    && MoHeader(file) == Some((|keys|, 28, 28 + 8 * |keys|))
    && Holds(ColumnAt(file, 28), keys) && Holds(ColumnAt(file, 28 + 8 * |keys|), texts)
  }

  lemma ReadableHolds(file: Bytes, keys: seq<string>, messages: map<string, string>)
    requires (forall k :: k in keys ==> k in messages) && Readable(file, Ids(keys), Strs(keys, messages))
    ensures Columns(file, keys, Translations(keys, messages))
  {
  }

  /** A reader following header, id table and string table recovers exactly the catalogue. */
  lemma ReadsBack(keys: seq<string>, messages: map<string, string>)
    requires KeysOf(keys, messages) && Packable(Ids(keys), Strs(keys, messages))
    ensures MoCatalog(MoBytes(Ids(keys), Strs(keys, messages))) == Some(messages)
  {
    WrittenIsReadable(Ids(keys), Strs(keys, messages));
    CatalogOf(MoBytes(Ids(keys), Strs(keys, messages)), keys, messages);
  }

  lemma CatalogOf(file: Bytes, keys: seq<string>, messages: map<string, string>)
    requires KeysOf(keys, messages) && Readable(file, Ids(keys), Strs(keys, messages))
    ensures MoCatalog(file) == Some(messages)
  {
    ReadableHolds(file, keys, messages);
    ColumnsRead(file, keys, Translations(keys, messages));
    CollectedIs(keys, messages);
  }

  lemma ColumnsRead(file: Bytes, keys: seq<string>, texts: seq<string>)
    requires Columns(file, keys, texts)
    ensures MoCatalog(file) == Some(Collected(keys, texts, |keys|))
  {
    EntriesRead(ColumnAt(file, 28), ColumnAt(file, 28 + 8 * |keys|), keys, texts, |keys|);
  }

  lemma CollectedIs(keys: seq<string>, messages: map<string, string>)
    requires KeysOf(keys, messages)
    ensures Collected(keys, Translations(keys, messages), |keys|) == messages
  {
    CollectedMeaning(keys, Translations(keys, messages), messages, |keys|);
    var m := Collected(keys, Translations(keys, messages), |keys|);
    forall k | k in messages
      ensures k in m
    {
      assert k in keys;
    }
  }

  function Collected(keys: seq<string>, texts: seq<string>, n: nat): map<string, string>
    requires n <= |keys| == |texts|
  {
    if n == 0 then map[] else Collected(keys, texts, n - 1)[keys[n - 1] := texts[n - 1]]
  }

  lemma {:induction false} CollectedMeaning(keys: seq<string>, texts: seq<string>, messages: map<string, string>,
                                            n: nat)
    requires n <= |keys| == |texts| && forall i :: 0 <= i < |keys| ==>
      keys[i] in messages && texts[i] == messages[keys[i]]
    ensures var m := Collected(keys, texts, n);
      && (forall i :: 0 <= i < n ==> keys[i] in m)
      && (forall k :: k in m ==> k in messages && m[k] == messages[k])
  {
    if n > 0 {
      CollectedMeaning(keys, texts, messages, n - 1);
    }
  }

  lemma EntryRead(a: Column, b: Column, n: nat, sofar: map<string, string>, key: string, text: string)
    requires n > 0 && MoEntries(a, b, n - 1) == Some(sofar) && a(n - 1) == Some(Encode(key)) &&
      b(n - 1) == Some(Encode(text))
    ensures MoEntries(a, b, n) == Some(sofar[key := text])
  {
    DecodeEncoded(key);
    DecodeEncoded(text);
  }

  lemma {:induction false} EntriesRead(a: Column, b: Column, keys: seq<string>, texts: seq<string>, n: nat)
    requires n <= |keys| == |texts| && Holds(a, keys) && Holds(b, texts)
    ensures MoEntries(a, b, n) == Some(Collected(keys, texts, n))
  {
    if n > 0 {
      EntriesRead(a, b, keys, texts, n - 1);
      EntryRead(a, b, n, Collected(keys, texts, n - 1), keys[n - 1], texts[n - 1]);
    }
  }

  /** Binary search by bytes over ids sorted by code point: sound and complete. */
  lemma {:induction false} SearchFinds(column: Column, keys: seq<string>, key: string, lo: nat, hi: nat)
    requires Ascending(keys) && Holds(column, keys) && lo <= hi <= |keys|
    requires forall i :: 0 <= i < lo || hi <= i < |keys| ==> keys[i] != key
    ensures var r := Search(column, Encode(key), lo, hi);
      if r.Some? then r.value < |keys| && keys[r.value] == key else key !in keys
    decreases hi - lo
  {
    if lo < hi {
      var mid := (lo + hi) / 2;
      var id := Encode(keys[mid]);
      assert column(mid) == Some(id);
      ByteOrder(keys[mid], key);
      if keys[mid] != key {
        Half(keys, key, mid);
        if KeyLess(keys[mid], key) {
          SearchFinds(column, keys, key, mid + 1, hi);
        } else {
          SearchFinds(column, keys, key, lo, mid);
        }
      }
    }
  }

  /** The half a comparison rules out does not hold the key. */
  lemma Half(keys: seq<string>, key: string, mid: nat)
    requires Ascending(keys) && mid < |keys| && keys[mid] != key
    ensures KeyLess(keys[mid], key) ==> forall i :: 0 <= i <= mid ==> keys[i] != key
    ensures !KeyLess(keys[mid], key) ==> forall i :: mid <= i < |keys| ==> keys[i] != key
  {
    KeyOrder(keys[mid], key);
  }

  /** `gettext` on the compiled file: every catalogue key with its translation, every other key absent. */
  lemma LookupCorrect(keys: seq<string>, messages: map<string, string>, key: string)
    requires KeysOf(keys, messages) && Packable(Ids(keys), Strs(keys, messages))
    ensures MoLookup(MoBytes(Ids(keys), Strs(keys, messages)), key)
        == if key in messages then Some(messages[key]) else None
  {
    WrittenIsReadable(Ids(keys), Strs(keys, messages));
    LookupIn(MoBytes(Ids(keys), Strs(keys, messages)), keys, messages, key);
  }

  lemma LookupIn(file: Bytes, keys: seq<string>, messages: map<string, string>, key: string)
    requires KeysOf(keys, messages) && Readable(file, Ids(keys), Strs(keys, messages))
    ensures MoLookup(file, key) == if key in messages then Some(messages[key]) else None
  {
    var texts := Translations(keys, messages);
    ReadableHolds(file, keys, messages);
    SearchFinds(ColumnAt(file, 28), keys, key, 0, |keys|);
    if key in messages {
      var i := Search(ColumnAt(file, 28), Encode(key), 0, |keys|).value;
      assert ColumnAt(file, 28 + 8 * |keys|)(i) == Some(Encode(texts[i]));
      DecodeEncoded(messages[key]);
    }
  }
}
