/** The MO writer of `compile_po`, and a reader that follows the section "The
  * Format of GNU MO Files" of the GNU gettext manual. */
module MoFile {
  import opened Wrappers
  import opened Utf8

  type Bytes = seq<byte>

  // ----------------------------------------------------------------------
  // Little-endian words and tables
  // ----------------------------------------------------------------------

  const WORD: nat := 0x1_0000_0000
  const MAGIC: nat := 0x950412DE

  /** Byte `i` of a number, the lowest first. */
  function ByteOf(n: nat, i: nat): byte {
    if i == 0 then n % 256 else ByteOf(n / 256, i - 1)
  }

  function U32(n: nat): (b: Bytes)
    requires n < WORD
    ensures |b| == 4
  {
    seq(4, i requires 0 <= i < 4 => ByteOf(n, i))
  }

  function Word(file: Bytes, at: nat): nat
    requires at + 4 <= |file|
  {
    file[at] as int + 256 * file[at + 1] as int + 65536 * file[at + 2] as int + 16777216 * file[at + 3] as int
  }

  /** Where string `i` starts when each string is followed by a NUL. */
  function Offset(strings: seq<Bytes>, i: nat): nat
    requires i <= |strings|
  {
    if i == 0 then 0 else Offset(strings, i - 1) + |strings[i - 1]| + 1
  }

  /** The first `i` strings, each followed by a NUL. */
  function Joined(strings: seq<Bytes>, i: nat): (b: Bytes)
    requires i <= |strings|
    ensures |b| == Offset(strings, i)
  {
    if i == 0 then [] else Joined(strings, i - 1) + strings[i - 1] + [0]
  }

  function Blob(strings: seq<Bytes>): (b: Bytes)
    ensures |b| == Offset(strings, |strings|)
  {
    Joined(strings, |strings|)
  }

  /** Descriptor `i` of a table for a blob at `base` fits in two words. */
  predicate EntryFits(strings: seq<Bytes>, base: nat, i: nat)
    requires i < |strings|
  {
    |strings[i]| < WORD && base + Offset(strings, i) < WORD
  }

  ghost predicate TableFits(strings: seq<Bytes>, base: nat, n: nat)
    requires n <= |strings|
  {
    forall i :: 0 <= i < n ==> EntryFits(strings, base, i)
  }

  function Entry(strings: seq<Bytes>, base: nat, i: nat): (e: Bytes)
    requires i < |strings| && EntryFits(strings, base, i)
    ensures |e| == 8
  {
    U32(|strings[i]|) + U32(base + Offset(strings, i))
  }

  /** The descriptors (length, position) of the strings of a blob placed at `base`. */
  ghost function Table(strings: seq<Bytes>, base: nat, n: nat): (t: Bytes)
    requires n <= |strings| && TableFits(strings, base, n)
    ensures |t| == 8 * n
  {
    if n == 0 then []
    else
      assert EntryFits(strings, base, n - 1);
      Table(strings, base, n - 1) + Entry(strings, base, n - 1)
  }

  // ----------------------------------------------------------------------
  // The file
  // ----------------------------------------------------------------------

  /** The layout decided by `compile_po` for `ids` and `strs` of equal number. */
  function IdsBase(n: nat): nat { 28 + 16 * n }

  function StrsBase(ids: seq<Bytes>): nat { IdsBase(|ids|) + Offset(ids, |ids|) }

  /** Every value handed to `struct.pack` is below 2^32. */
  ghost predicate Packable(ids: seq<Bytes>, strs: seq<Bytes>) {
    && IdsBase(|ids|) - 8 * |ids| < WORD
    && TableFits(ids, IdsBase(|ids|), |ids|) && TableFits(strs, StrsBase(ids), |strs|)
  }

  function Header(n: nat): (h: Bytes)
    requires 28 + 8 * n < WORD
    ensures |h| == 28
  {
    U32(MAGIC) + U32(0) + U32(n) + U32(28) + U32(28 + 8 * n) + U32(0) + U32(0)
  }

  ghost function MoBytes(ids: seq<Bytes>, strs: seq<Bytes>): Bytes
    requires |ids| == |strs| && Packable(ids, strs)
  {
    Header(|ids|) + Table(ids, IdsBase(|ids|), |ids|) + Table(strs, StrsBase(ids), |strs|) + Blob(ids) + Blob(strs)
  }

  // ----------------------------------------------------------------------
  // The reader
  // ----------------------------------------------------------------------

  /** String `i` of the table at `table`: descriptor, then content, then its NUL. */
  function MoString(file: Bytes, table: nat, i: nat): Option<Bytes> {
    if table + 8 * i + 8 > |file| then None
    else
      var length, position := Word(file, table + 8 * i), Word(file, table + 8 * i + 4);
      if position + length + 1 > |file| || file[position + length] != 0 then None
      else Some(file[position..position + length])
  }

  /** The number of entries and the two table positions, from a header with the right magic. */
  function MoHeader(file: Bytes): Option<(nat, nat, nat)> {
    if |file| < 28 || Word(file, 0) != MAGIC || Word(file, 4) != 0 then None
    else Some((Word(file, 8), Word(file, 12), Word(file, 16)))
  }

  /** How the reader sees one table: string number to content. */
  type Column = nat -> Option<Bytes>

  function ColumnAt(file: Bytes, table: nat): Column {
    i => MoString(file, table, i)
  }

  /** The catalogue held by entries `[0, n)`. */
  function MoEntries(ids: Column, strs: Column, n: nat): Option<map<string, string>> {
    if n == 0 then Some(map[])
    else
      var rest, id, str := MoEntries(ids, strs, n - 1), ids(n - 1), strs(n - 1);
      if rest.None? || id.None? || str.None? then None
      else
        var k, v := Decode(id.value), Decode(str.value);
        if k.None? || v.None? then None else Some(rest.value[k.value := v.value])
  }

  function MoCatalog(file: Bytes): Option<map<string, string>> {
    var header := MoHeader(file);
    if header.None? then None
    else MoEntries(ColumnAt(file, header.value.1), ColumnAt(file, header.value.2), header.value.0)
  }

  /** Binary search of the id table by byte comparison, between entries `lo` and `hi`. */
  function Search(ids: Column, key: Bytes, lo: nat, hi: nat): Option<nat>
    decreases hi - lo
  {
    if lo >= hi then None
    else
      var mid := (lo + hi) / 2;
      var id := ids(mid);
      if id.None? then None
      else if id.value == key then Some(mid)
      else if Less(id.value, key) then Search(ids, key, mid + 1, hi)
      else Search(ids, key, lo, mid)
  }

  /** `gettext`: the translation of `key`, or nothing. */
  function MoLookup(file: Bytes, key: string): Option<string> {
    var header := MoHeader(file);
    if header.None? then None
    else
      var i := Search(ColumnAt(file, header.value.1), Encode(key), 0, header.value.0);
      if i.None? then None
      else
        var str := MoString(file, header.value.2, i.value);
        if str.None? then None else Decode(str.value)
  }

  // ----------------------------------------------------------------------
  // Reading back what was written
  // ----------------------------------------------------------------------

  lemma WordAt(file: Bytes, at: nat, n: nat)
    requires n < WORD && at + 4 <= |file| && file[at..at + 4] == U32(n)
    ensures Word(file, at) == n
  {
    var w := file[at..at + 4];
    assert file[at] == w[0] && file[at + 1] == w[1] && file[at + 2] == w[2] && file[at + 3] == w[3];
    U32Back(n);
  }

  lemma U32Back(n: nat)
    requires n < WORD
    ensures var w := U32(n); n == w[0] as int + 256 * w[1] as int + 65536 * w[2] as int + 16777216 * w[3] as int
  {
    var a := n / 256;
    var b := a / 256;
    var c := b / 256;
    assert ByteOf(n, 1) == ByteOf(a, 0);
    assert ByteOf(n, 2) == ByteOf(a, 1) == ByteOf(b, 0);
    assert ByteOf(n, 3) == ByteOf(a, 2) == ByteOf(b, 1) == ByteOf(c, 0);
    assert c < 256 && n == n % 256 + 256 * (a % 256 + 256 * (b % 256 + 256 * c));
  }

  lemma {:induction false} JoinedSplit(strings: seq<Bytes>, n: nat, i: nat)
    requires i < n <= |strings|
    ensures Offset(strings, i) + |strings[i]| + 1 == Offset(strings, i + 1) <= Offset(strings, n)
    ensures var at := Offset(strings, i);
      && Joined(strings, n)[at..at + |strings[i]|] == strings[i]
      && Joined(strings, n)[at + |strings[i]|] == 0
    decreases n
  {
    var shorter := Joined(strings, n - 1);
    assert Joined(strings, n) == shorter + strings[n - 1] + [0];
    if i < n - 1 {
      JoinedSplit(strings, n - 1, i);
      var at := Offset(strings, i);
      assert (shorter + strings[n - 1] + [0])[at..at + |strings[i]|] == shorter[at..at + |strings[i]|];
    }
  }

  lemma {:induction false} TableEntry(strings: seq<Bytes>, base: nat, n: nat, i: nat)
    requires i < n <= |strings| && TableFits(strings, base, n) && EntryFits(strings, base, i)
    ensures Table(strings, base, n)[8 * i..8 * i + 8] == Entry(strings, base, i)
    decreases n
  {
    assert EntryFits(strings, base, n - 1);
    var s, e := Table(strings, base, n - 1), Entry(strings, base, n - 1);
    if i < n - 1 {
      TableEntry(strings, base, n - 1, i);
      assert (s + e)[8 * i..8 * i + 8] == s[8 * i..8 * i + 8];
    } else {
      assert (s + e)[8 * i..8 * i + 8] == e;
    }
  }

  /** A part of the file at a given place. */
  predicate Sits(file: Bytes, at: nat, part: Bytes) {
    at + |part| <= |file| && file[at..at + |part|] == part
  }

  lemma SubSits(file: Bytes, at: nat, part: Bytes, lo: nat, hi: nat)
    requires Sits(file, at, part) && lo <= hi <= |part|
    ensures Sits(file, at + lo, part[lo..hi])
  {
    forall k | 0 <= k < hi - lo
      ensures file[at + lo..at + hi][k] == part[lo..hi][k]
    {
      assert part[lo + k] == file[at..at + |part|][lo + k];
    }
  }

  /** One descriptor: a length and a position. */
  lemma WordsRead(file: Bytes, p: nat, length: nat, position: nat)
    requires length < WORD && position < WORD && Sits(file, p, U32(length) + U32(position))
    ensures p + 8 <= |file| && Word(file, p) == length && Word(file, p + 4) == position
  {
    var e := U32(length) + U32(position);
    SubSits(file, p, e, 0, 4);
    SubSits(file, p, e, 4, 8);
    assert e[0..4] == U32(length) && e[4..8] == U32(position);
    WordAt(file, p, length);
    WordAt(file, p + 4, position);
  }

  /** A string and its NUL inside a part of the file. */
  lemma ContentReads(file: Bytes, base: nat, part: Bytes, at: nat, content: Bytes)
    requires Sits(file, base, part) && at + |content| < |part|
    requires part[at..at + |content|] == content && part[at + |content|] == 0
    ensures base + at + |content| < |file|
    ensures file[base + at..base + at + |content|] == content && file[base + at + |content|] == 0
  {
    SubSits(file, base, part, at, at + |content|);
    assert file[base..base + |part|][at + |content|] == 0;
  }

  ghost function Length(file: Bytes, table: nat, i: nat): nat
    requires table + 8 * i + 8 <= |file|
  {
    Word(file, table + 8 * i)
  }

  ghost function Position(file: Bytes, table: nat, i: nat): nat
    requires table + 8 * i + 8 <= |file|
  {
    Word(file, table + 8 * i + 4)
  }

  /** One string as the reader sees it: its descriptor in the table, and the content it points at. */
  ghost predicate Described(file: Bytes, table: nat, base: nat, strings: seq<Bytes>, i: nat)
    requires i < |strings|
  {
    && table + 8 * i + 8 <= |file|
    && Length(file, table, i) == |strings[i]| && Position(file, table, i) == base + Offset(strings, i)
    && MoString(file, table, i) == Some(strings[i])
  }

  /** A descriptor table and the blob it describes, wherever they sit in a file,
    * give every string back, NUL included, inside the file. */
  lemma TableReads(file: Bytes, table: nat, base: nat, strings: seq<Bytes>, i: nat)
    requires i < |strings| && TableFits(strings, base, |strings|)
    requires Sits(file, table, Table(strings, base, |strings|)) && Sits(file, base, Blob(strings))
    ensures Described(file, table, base, strings, i)
  {
    assert EntryFits(strings, base, i);
    var at, content := Offset(strings, i), strings[i];
    EntrySits(file, table, base, strings, i);
    WordsRead(file, table + 8 * i, |content|, base + at);
    StringSits(strings, i);
    ContentReads(file, base, Blob(strings), at, content);
    StringFound(file, table, i, base + at, content);
  }

  lemma StringFound(file: Bytes, table: nat, i: nat, position: nat, content: Bytes)
    requires table + 8 * i + 8 <= |file|
    requires Word(file, table + 8 * i) == |content| && Word(file, table + 8 * i + 4) == position
    requires position + |content| < |file| && file[position..position + |content|] == content
    requires file[position + |content|] == 0
    ensures MoString(file, table, i) == Some(content)
  {
  }

  lemma StringSits(strings: seq<Bytes>, i: nat)
    requires i < |strings|
    ensures var at, blob := Offset(strings, i), Blob(strings);
      && at + |strings[i]| < |blob| && blob[at..at + |strings[i]|] == strings[i] && blob[at + |strings[i]|] == 0
  {
    JoinedSplit(strings, |strings|, i);
  }

  lemma EntrySits(file: Bytes, table: nat, base: nat, strings: seq<Bytes>, i: nat)
    requires i < |strings| && TableFits(strings, base, |strings|) && EntryFits(strings, base, i)
    requires Sits(file, table, Table(strings, base, |strings|))
    ensures Sits(file, table + 8 * i, U32(|strings[i]|) + U32(base + Offset(strings, i)))
  {
    TableEntry(strings, base, |strings|, i);
    SubSits(file, table, Table(strings, base, |strings|), 8 * i, 8 * i + 8);
  }

  lemma HeaderReads(n: nat, rest: Bytes)
    requires 28 + 8 * n < WORD
    ensures MoHeader(Header(n) + rest) == Some((n, 28, 28 + 8 * n))
  {
    var file, h := Header(n) + rest, Header(n);
    assert h[0..4] == U32(MAGIC) && h[4..8] == U32(0) && h[8..12] == U32(n);
    assert h[12..16] == U32(28) && h[16..20] == U32(28 + 8 * n);
    HeaderWord(file, h, rest, 0, MAGIC);
    HeaderWord(file, h, rest, 4, 0);
    HeaderWord(file, h, rest, 8, n);
    HeaderWord(file, h, rest, 12, 28);
    HeaderWord(file, h, rest, 16, 28 + 8 * n);
  }

  lemma HeaderWord(file: Bytes, h: Bytes, rest: Bytes, at: nat, value: nat)
    requires file == h + rest && at + 4 <= |h| && value < WORD && h[at..at + 4] == U32(value)
    ensures Word(file, at) == value
  {
    assert file[0..|h|] == h;
    SubSits(file, 0, h, at, at + 4);
    WordAt(file, at, value);
  }

  /** The reader gets the count and the table positions from the header. */
  lemma HeaderOf(ids: seq<Bytes>, strs: seq<Bytes>)
    requires |ids| == |strs| && Packable(ids, strs)
    ensures MoHeader(MoBytes(ids, strs)) == Some((|ids|, 28, 28 + 8 * |ids|))
  {
    var n := |ids|;
    HeaderFirst(n, Table(ids, IdsBase(n), n), Table(strs, StrsBase(ids), n), Blob(ids), Blob(strs));
  }

  lemma HeaderFirst(n: nat, a: Bytes, b: Bytes, c: Bytes, d: Bytes)
    requires 28 + 8 * n < WORD
    ensures MoHeader(Header(n) + a + b + c + d) == Some((n, 28, 28 + 8 * n))
  {
    assert Header(n) + a + b + c + d == Header(n) + (a + b + c + d);
    HeaderReads(n, a + b + c + d);
  }

  /** Both tables and both blobs sit where the layout puts them. */
  ghost predicate LaidOut(file: Bytes, ids: seq<Bytes>, strs: seq<Bytes>)
    requires |ids| == |strs| && Packable(ids, strs)
  {
    var n, b, c := |ids|, IdsBase(|ids|), StrsBase(ids);
    && |file| == c + |Blob(strs)|
    && Sits(file, 28, Table(ids, b, n)) && Sits(file, 28 + 8 * n, Table(strs, c, n))
    && Sits(file, b, Blob(ids)) && Sits(file, c, Blob(strs))
  }

  lemma WrittenLaidOut(ids: seq<Bytes>, strs: seq<Bytes>)
    requires |ids| == |strs| && Packable(ids, strs)
    ensures LaidOut(MoBytes(ids, strs), ids, strs)
  {
    var n := |ids|;
    Regions(MoBytes(ids, strs), Header(n), Table(ids, IdsBase(n), n), Table(strs, StrsBase(ids), n), Blob(ids),
            Blob(strs));
  }

  lemma LaidOutReads(file: Bytes, ids: seq<Bytes>, strs: seq<Bytes>, i: nat)
    requires i < |ids| == |strs| && Packable(ids, strs) && LaidOut(file, ids, strs)
    ensures Described(file, 28, IdsBase(|ids|), ids, i) && Described(file, 28 + 8 * |ids|, StrsBase(ids), strs, i)
  {
    IdReads(file, ids, strs, i);
    StrReads(file, ids, strs, i);
  }

  lemma IdReads(file: Bytes, ids: seq<Bytes>, strs: seq<Bytes>, i: nat)
    requires i < |ids| == |strs| && Packable(ids, strs) && LaidOut(file, ids, strs)
    ensures Described(file, 28, IdsBase(|ids|), ids, i)
  {
    TableReads(file, 28, IdsBase(|ids|), ids, i);
  }

  lemma StrReads(file: Bytes, ids: seq<Bytes>, strs: seq<Bytes>, i: nat)
    requires i < |ids| == |strs| && Packable(ids, strs) && LaidOut(file, ids, strs)
    ensures Described(file, 28 + 8 * |ids|, StrsBase(ids), strs, i)
  {
    TableReads(file, 28 + 8 * |ids|, StrsBase(ids), strs, i);
  }

  /** Both descriptor tables of the written file, as the reader sees them. */
  lemma Descriptors(ids: seq<Bytes>, strs: seq<Bytes>, i: nat)
    requires i < |ids| == |strs| && Packable(ids, strs)
    ensures var file := MoBytes(ids, strs);
      && |file| == StrsBase(ids) + |Blob(strs)|
      && Described(file, 28, IdsBase(|ids|), ids, i) && Described(file, 28 + 8 * |ids|, StrsBase(ids), strs, i)
  {
    WrittenLaidOut(ids, strs);
    LaidOutReads(MoBytes(ids, strs), ids, strs, i);
  }

  lemma Regions(file: Bytes, a: Bytes, b: Bytes, c: Bytes, d: Bytes, e: Bytes)
    requires file == a + b + c + d + e
    ensures |file| == |a| + |b| + |c| + |d| + |e|
    ensures Sits(file, |a|, b) && Sits(file, |a| + |b|, c)
    ensures Sits(file, |a| + |b| + |c|, d) && Sits(file, |a| + |b| + |c| + |d|, e)
  {
  }

  /** What a descriptor says, without the content it points at. */
  lemma DescriptorAt(ids: seq<Bytes>, strs: seq<Bytes>, i: nat)
    requires i < |ids| == |strs| && Packable(ids, strs)
    ensures var file, n := MoBytes(ids, strs), |ids|;
      && 28 + 16 * n <= |file| == StrsBase(ids) + Offset(strs, n)
      && Length(file, 28, i) == |ids[i]| && Position(file, 28, i) == IdsBase(n) + Offset(ids, i)
      && Length(file, 28 + 8 * n, i) == |strs[i]| && Position(file, 28 + 8 * n, i) == StrsBase(ids) + Offset(strs, i)
  {
    Descriptors(ids, strs, i);
  }

  /** The regions tile the file: after header and tables, each string with its
    * NUL starts where the previous one ended, ids before translations, and the
    * last one ends the file. */
  lemma RegionsTile(ids: seq<Bytes>, strs: seq<Bytes>, i: nat)
    requires |ids| == |strs| && Packable(ids, strs) && i < |ids|
    ensures var file, n := MoBytes(ids, strs), |ids|;
      && 28 + 16 * n <= |file|
      && (i == 0 ==> Position(file, 28, i) == 28 + 16 * n)
      && Position(file, 28, i) + Length(file, 28, i) + 1
         == (if i + 1 < n then Position(file, 28, i + 1) else Position(file, 28 + 8 * n, 0))
      && Position(file, 28 + 8 * n, i) + Length(file, 28 + 8 * n, i) + 1
         == (if i + 1 < n then Position(file, 28 + 8 * n, i + 1) else |file|)
  {
    DescriptorAt(ids, strs, i);
    BlobNext(ids, i);
    BlobNext(strs, i);
    if i + 1 < |ids| {
      DescriptorAt(ids, strs, i + 1);
    } else {
      DescriptorAt(ids, strs, 0);
    }
  }

  lemma BlobNext(strings: seq<Bytes>, i: nat)
    requires i < |strings|
    ensures Offset(strings, i) + |strings[i]| + 1 == Offset(strings, i + 1)
    ensures Offset(strings, 0) == 0
  {
  }

  /** What a reader gets from the file: the count, both table positions, every string. */
  ghost predicate Readable(file: Bytes, ids: seq<Bytes>, strs: seq<Bytes>) {
    && MoHeader(file) == Some((|ids|, 28, 28 + 8 * |ids|))
    && (forall i :: 0 <= i < |ids| ==> MoString(file, 28, i) == Some(ids[i]))
    && (forall i :: 0 <= i < |strs| ==> MoString(file, 28 + 8 * |ids|, i) == Some(strs[i]))
  }

  lemma WrittenIsReadable(ids: seq<Bytes>, strs: seq<Bytes>)
    requires |ids| == |strs| && Packable(ids, strs)
    ensures Readable(MoBytes(ids, strs), ids, strs)
  {
    HeaderOf(ids, strs);
    forall i | 0 <= i < |ids|
      ensures MoString(MoBytes(ids, strs), 28, i) == Some(ids[i])
      ensures MoString(MoBytes(ids, strs), 28 + 8 * |ids|, i) == Some(strs[i])
    {
      Descriptors(ids, strs, i);
    }
  }

  /** `struct.pack` succeeds for the whole file exactly when it does for the last
    * translation: every other packed value is smaller than that one's end. */
  lemma PackableIff(ids: seq<Bytes>, strs: seq<Bytes>)
    requires |ids| == |strs|
    ensures Packable(ids, strs) <==>
      strs == [] || (StrsBase(ids) + Offset(strs, |strs| - 1) < WORD && |strs[|strs| - 1]| < WORD)
  {
    var n := |strs|;
    assert n > 0 && Packable(ids, strs) ==> EntryFits(strs, StrsBase(ids), n - 1);
    if n > 0 && StrsBase(ids) + Offset(strs, n - 1) < WORD && |strs[n - 1]| < WORD {
      forall i | 0 <= i < n
        ensures EntryFits(ids, IdsBase(n), i)
      {
        JoinedSplit(ids, n, i);
      }
      forall i | 0 <= i < n
        ensures EntryFits(strs, StrsBase(ids), i)
      {
        OffsetGrows(strs, i, n - 1);
      }
    }
  }

  lemma {:induction false} OffsetGrows(strings: seq<Bytes>, i: nat, j: nat)
    requires i <= j < |strings|
    ensures Offset(strings, i) <= Offset(strings, j)
    ensures i < j ==> |strings[i]| < Offset(strings, j)
    decreases j - i
  {
    if i < j {
      JoinedSplit(strings, j, i);
      OffsetGrows(strings, i + 1, j);
    }
  }

  /** The first bytes of the file: magic number, revision 0, the number of strings, where the two tables start, and a
    * hash table of size 0. */
  lemma HeaderWritten(ids: seq<Bytes>, strs: seq<Bytes>)
    requires |ids| == |strs| && Packable(ids, strs)
    ensures var file := MoBytes(ids, strs);
      && |file| >= 28 && file[..4] == [0xDE, 0x12, 0x04, 0x95]
      && Word(file, 4) == 0 && Word(file, 8) == |ids| && Word(file, 12) == 28 && Word(file, 16) == 28 + 8 * |ids|
      && Word(file, 20) == 0 && Word(file, 24) == 0
  {
    var n := |ids|;
    var h := Header(n);
    var rest := Table(ids, IdsBase(n), n) + Table(strs, StrsBase(ids), n) + Blob(ids) + Blob(strs);
    assert MoBytes(ids, strs) == h + rest;
    HeaderReads(n, rest);
    assert h[20..24] == U32(0) && h[24..28] == U32(0);
    HeaderWord(h + rest, h, rest, 20, 0);
    HeaderWord(h + rest, h, rest, 24, 0);
    MagicBytes();
    assert (h + rest)[..4] == h[0..4] == U32(MAGIC);
  }

  lemma MagicBytes()
    ensures U32(MAGIC) == [0xDE, 0x12, 0x04, 0x95]
  {
    assert ByteOf(MAGIC, 1) == ByteOf(MAGIC / 256, 0) == 0x12;
    assert ByteOf(MAGIC, 2) == ByteOf(MAGIC / 256, 1) == ByteOf(MAGIC / 65536, 0) == 0x04;
    assert ByteOf(MAGIC, 3) == ByteOf(MAGIC / 256, 2) == ByteOf(MAGIC / 65536, 1);
    assert ByteOf(MAGIC / 65536, 1) == ByteOf(MAGIC / 16777216, 0) == 0x95;
  }
}
