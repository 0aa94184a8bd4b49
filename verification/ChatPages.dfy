/** The keyset pages served by `ChatMessagesView.list`.
  *
  * The message table is a map from id to row; the order in which rows were
  * committed is not part of it.  `ORDER BY id` is therefore a scan of the id
  * space, which is what `Thread` is. */
module ChatPages {
  import opened Wrappers

  datatype Row = Row(id: nat, thread: nat, sender: nat, body: string, clientId: Option<nat>)

  type Table = map<nat, Row>

  ghost predicate WellKeyed(rows: Table) {
    forall i :: i in rows ==> rows[i].id == i
  }

  predicate In(rows: Table, m: nat, i: nat) {
    i in rows && rows[i].thread == m
  }

  /** The rows of thread `m` with `lo <= id < hi`, by ascending id. */
  function Thread(rows: Table, m: nat, lo: nat, hi: nat): (r: seq<Row>)
    decreases hi
  {
    if hi <= lo then []
    else Thread(rows, m, lo, hi - 1) + if In(rows, m, hi - 1) then [rows[hi - 1]] else []
  }

  /** `t` lists exactly the rows of `m` with `lo <= id < hi`, once each and in order. */
  ghost predicate Lists(t: seq<Row>, rows: Table, m: nat, lo: nat, hi: nat) {
    && (forall k :: 0 <= k < |t| ==> lo <= t[k].id < hi && In(rows, m, t[k].id) && t[k] == rows[t[k].id])
    && (forall j, k :: 0 <= j < k < |t| ==> t[j].id < t[k].id)
    && (forall i :: lo <= i < hi && In(rows, m, i) ==> rows[i] in t)
  }

  lemma {:induction false} ThreadContents(rows: Table, m: nat, lo: nat, hi: nat)
    requires WellKeyed(rows)
    ensures Lists(Thread(rows, m, lo, hi), rows, m, lo, hi)
    decreases hi
  {
    if lo < hi {
      ThreadContents(rows, m, lo, hi - 1);
      ListsMore(Thread(rows, m, lo, hi - 1), Thread(rows, m, lo, hi), rows, m, lo, hi);
    }
  }

  lemma ListsMore(s: seq<Row>, t: seq<Row>, rows: Table, m: nat, lo: nat, hi: nat)
    requires WellKeyed(rows) && lo < hi && Lists(s, rows, m, lo, hi - 1)
    requires t == s + if In(rows, m, hi - 1) then [rows[hi - 1]] else []
    ensures Lists(t, rows, m, lo, hi)
  {
  }

  /** The ids of the committed rows of thread `m` with `lo <= id < hi`. */
  function IdsIn(rows: Table, m: nat, lo: nat, hi: nat): set<nat> {
    set i | i in rows && rows[i].thread == m && lo <= i < hi
  }

  function IdsOf(rows: Table, m: nat): set<nat> {
    set i | i in rows && rows[i].thread == m
  }

  /** The listing is as long as there are rows. */
  lemma {:induction false} ThreadSize(rows: Table, m: nat, lo: nat, hi: nat)
    ensures |Thread(rows, m, lo, hi)| == |IdsIn(rows, m, lo, hi)|
    decreases hi
  {
    if lo < hi {
      ThreadSize(rows, m, lo, hi - 1);
      var before := IdsIn(rows, m, lo, hi - 1);
      assert IdsIn(rows, m, lo, hi) == if In(rows, m, hi - 1) then before + {hi - 1} else before;
    } else {
      assert IdsIn(rows, m, lo, hi) == {};
    }
  }

  lemma {:induction false} ThreadSplit(rows: Table, m: nat, lo: nat, mid: nat, hi: nat)
    requires lo <= mid <= hi
    ensures Thread(rows, m, lo, hi) == Thread(rows, m, lo, mid) + Thread(rows, m, mid, hi)
    decreases hi
  {
    if mid < hi {
      ThreadSplit(rows, m, lo, mid, hi - 1);
    }
  }

  /** Only the rows of `m` inside the range matter. */
  lemma {:induction false} ThreadFrame(rows: Table, rows': Table, m: nat, lo: nat, hi: nat)
    requires forall i :: lo <= i < hi ==> In(rows, m, i) == In(rows', m, i)
    requires forall i :: lo <= i < hi && In(rows, m, i) ==> i in rows' && rows[i] == rows'[i]
    ensures Thread(rows, m, lo, hi) == Thread(rows', m, lo, hi)
    decreases hi
  {
    if lo < hi {
      ThreadFrame(rows, rows', m, lo, hi - 1);
    }
  }

  /** Cutting the listing at position `k` is cutting the id range at that row's id. */
  lemma {:induction false} ThreadCut(rows: Table, m: nat, lo: nat, hi: nat, k: nat)
    requires WellKeyed(rows)
    requires k < |Thread(rows, m, lo, hi)|
    ensures var t := Thread(rows, m, lo, hi);
      && lo <= t[k].id < hi && In(rows, m, t[k].id)
      && t[..k] == Thread(rows, m, lo, t[k].id)
      && t[k..] == Thread(rows, m, t[k].id, hi)
      && t[..k + 1] == Thread(rows, m, lo, t[k].id + 1)
      && t[k + 1..] == Thread(rows, m, t[k].id + 1, hi)
    decreases hi
  {
    var s, t := Thread(rows, m, lo, hi - 1), Thread(rows, m, lo, hi);
    var last := if In(rows, m, hi - 1) then [rows[hi - 1]] else [];
    assert t == s + last;
    if k < |s| {
      ThreadCut(rows, m, lo, hi - 1, k);
      CutJoined(s, last, k);
      CutJoined(s, last, k + 1);
    } else {
      assert last == [t[k]];
      CutJoined(s, last, k);
    }
  }

  lemma CutJoined<T>(s: seq<T>, more: seq<T>, k: nat)
    requires k <= |s|
    ensures (s + more)[..k] == s[..k] && (s + more)[k..] == s[k..] + more
    ensures (s + more)[..|s|] == s && (s + more)[|s|..] == more
    ensures (s + more)[..|s| + |more|] == s + more && (s + more)[|s| + |more|..] == []
  {
  }

  // ----------------------------------------------------------------------
  // The pages, computed as the view computes them
  // ----------------------------------------------------------------------

  function Reversed<T>(s: seq<T>): (r: seq<T>)
    ensures |r| == |s|
    ensures forall k :: 0 <= k < |s| ==> r[k] == s[|s| - 1 - k]
  {
    seq(|s|, k requires 0 <= k < |s| => s[|s| - 1 - k])
  }

  function Min(a: nat, b: nat): nat { if a < b then a else b }

  datatype Cursor = Latest | BeforeId(id: nat) | AfterId(id: nat) | PageNo(number: nat)

  datatype Page = Page(messages: seq<Row>, hasMore: bool)

  /** `ORDER BY -id LIMIT size + 1`, the probe row dropped and the rest put back in order. */
  function DescendingPage(found: seq<Row>, size: nat): Page {
    var window := Reversed(found)[..Min(size + 1, |found|)];
    Page(Reversed(window[..Min(size, |window|)]), |window| > size)
  }

  /** `ORDER BY id LIMIT size + 1`, the probe row dropped. */
  function AscendingPage(found: seq<Row>, size: nat): Page {
    var window := found[..Min(size + 1, |found|)];
    Page(window[..Min(size, |window|)], |window| > size)
  }

  /** The rows before page `p`. */
  function Skipped(p: nat, size: nat): (n: nat)
    ensures p == 1 ==> n == 0
  {
    if p == 0 then 0 else (p - 1) * size
  }

  /** One read of thread `m`.  `top` bounds every committed id.  A page number
    * outside the listing is the view's 404, `None`. */
  function Read(rows: Table, m: nat, top: nat, cursor: Cursor, size: nat): (p: Option<Page>) {
    match cursor
    case Latest => Some(DescendingPage(Thread(rows, m, 0, top), size))
    case BeforeId(b) => Some(DescendingPage(Thread(rows, m, 0, Min(b, top)), size))
    case AfterId(a) => Some(AscendingPage(Thread(rows, m, a + 1, top), size))
    case PageNo(p) =>
      var found := Thread(rows, m, 0, top);
      var from := Skipped(p, size);
      if p == 0 || (p > 1 && from >= |found|) then None
      else Some(AscendingPage(found[Min(from, |found|)..], size))
  }

  /** The reversed window is the last `size` rows; the probe row tells whether any was left out. */
  lemma DescendingMeaning(t: seq<Row>, size: nat)
    ensures DescendingPage(t, size) == Page(t[|t| - Min(size, |t|)..], |t| > size)
  {
  }

  lemma AscendingMeaning(t: seq<Row>, size: nat)
    ensures AscendingPage(t, size) == Page(t[..Min(size, |t|)], |t| > size)
  {
  }

  ghost predicate Below(rows: Table, top: nat) {
    WellKeyed(rows) && forall i :: i in rows ==> i < top
  }

  /** As many messages as were asked for, or all there are; `has_more` exactly where there are more. */
  ghost predicate Filled(page: Page, size: nat, ids: set<nat>) {
    |page.messages| == (if |ids| <= size then |ids| else size) && (page.hasMore <==> |ids| > size)
  }

  // Meaning of one keyset page of at least one row: a contiguous slice of the
  // thread that ends (or starts) where the cursor says, and `has_more` holds
  // exactly when committed rows remain on the far side of the slice.

  ghost predicate LatestMeaning(rows: Table, m: nat, top: nat, page: Page) {
    if page.messages == [] then !page.hasMore && Thread(rows, m, 0, top) == []
    else
      && page.messages == Thread(rows, m, page.messages[0].id, top)
      && (page.hasMore <==> Thread(rows, m, 0, page.messages[0].id) != [])
  }

  ghost predicate BeforeMeaning(rows: Table, m: nat, b: nat, page: Page) {
    if page.messages == [] then !page.hasMore && Thread(rows, m, 0, b) == []
    else
      && page.messages[0].id < b
      && page.messages == Thread(rows, m, page.messages[0].id, b)
      && (page.hasMore <==> Thread(rows, m, 0, page.messages[0].id) != [])
  }

  ghost predicate AfterMeaning(rows: Table, m: nat, top: nat, a: nat, page: Page) {
    if page.messages == [] then !page.hasMore && Thread(rows, m, a + 1, top) == []
    else
      var last := page.messages[|page.messages| - 1].id;
      && a < last
      && page.messages == Thread(rows, m, a + 1, last + 1)
      && (page.hasMore <==> Thread(rows, m, last + 1, top) != [])
  }

  lemma LatestRead(rows: Table, m: nat, top: nat, size: nat)
    requires Below(rows, top) && size >= 1
    ensures var page := Read(rows, m, top, Latest, size);
      && page.Some? && LatestMeaning(rows, m, top, page.value)
      && Filled(page.value, size, IdsOf(rows, m))
  {
    SuffixPage(rows, m, top, size);
    assert IdsIn(rows, m, 0, top) == IdsOf(rows, m);
  }

  lemma BeforeRead(rows: Table, m: nat, top: nat, b: nat, size: nat)
    requires Below(rows, top) && size >= 1
    ensures var page := Read(rows, m, top, BeforeId(b), size);
      && page.Some? && BeforeMeaning(rows, m, b, page.value)
      && Filled(page.value, size, set i | i in IdsOf(rows, m) && i < b)
  {
    var hi := Min(b, top);
    SuffixPage(rows, m, hi, size);
    assert IdsIn(rows, m, 0, hi) == set i | i in IdsOf(rows, m) && i < b;
    ThreadBeyond(rows, m, 0, top, b);
    var msgs := DescendingPage(Thread(rows, m, 0, hi), size).messages;
    if msgs != [] {
      ThreadBeyond(rows, m, msgs[0].id, top, b);
    }
  }

  lemma AfterRead(rows: Table, m: nat, top: nat, a: nat, size: nat)
    requires Below(rows, top) && size >= 1
    ensures var page := Read(rows, m, top, AfterId(a), size);
      && page.Some? && AfterMeaning(rows, m, top, a, page.value)
      && Filled(page.value, size, set i | i in IdsOf(rows, m) && i > a)
  {
    var t := Thread(rows, m, a + 1, top);
    var n := Min(size, |t|);
    AscendingMeaning(t, size);
    ThreadSize(rows, m, a + 1, top);
    assert IdsIn(rows, m, a + 1, top) == set i | i in IdsOf(rows, m) && i > a;
    if n > 0 {
      ThreadCut(rows, m, a + 1, top, n - 1);
      assert t[..n][n - 1] == t[n - 1];
    }
  }

  /** Page `p` is the stretch of the listing of the whole thread from position `(p - 1) * size` on, of at most `size`
    * rows; there is no page 0 and none past the end but the first. */
  lemma PageRead(rows: Table, m: nat, top: nat, p: nat, size: nat, listing: seq<Row>)
    requires Below(rows, top) && size >= 1 && Lists(listing, rows, m, 0, top)
    ensures var page := Read(rows, m, top, PageNo(p), size);
      && (page.Some? <==> p == 1 || (p > 1 && (p - 1) * size < |listing|))
      && (page.Some? ==>
            var from, to := (p - 1) * size, p * size;
            && page.value.messages == listing[from..Min(to, |listing|)]
            && (page.value.hasMore <==> to < |listing|))
  {
    ThreadContents(rows, m, 0, top);
    OneListing(listing, Thread(rows, m, 0, top), rows, m, 0, top);
    if p >= 1 {
      assert p * size == (p - 1) * size + size;
      if (p - 1) * size <= |listing| {
        Stretch(listing, (p - 1) * size, size);
      }
    }
  }

  lemma Stretch(t: seq<Row>, from: nat, size: nat)
    requires from <= |t|
    ensures AscendingPage(t[from..], size) == Page(t[from..Min(from + size, |t|)], from + size < |t|)
  {
  }

  /** There is one way to list the rows in order. */
  lemma OneListing(s: seq<Row>, t: seq<Row>, rows: Table, m: nat, lo: nat, hi: nat)
    requires WellKeyed(rows) && Lists(s, rows, m, lo, hi) && Lists(t, rows, m, lo, hi)
    ensures s == t
  {
    SamePrefix(s, t, |s|, rows, m, lo, hi);
    SamePrefix(t, s, |t|, rows, m, lo, hi);
    assert s[..|s|] == s && t[..|t|] == t;
  }

  lemma {:induction false} SamePrefix(s: seq<Row>, t: seq<Row>, k: nat, rows: Table, m: nat, lo: nat, hi: nat)
    requires WellKeyed(rows) && Lists(s, rows, m, lo, hi) && Lists(t, rows, m, lo, hi) && k <= |s|
    ensures k <= |t| && s[..k] == t[..k]
  {
    if k > 0 {
      SamePrefix(s, t, k - 1, rows, m, lo, hi);
      assert s[k - 1] == rows[s[k - 1].id] && s[k - 1] in t;
      NextComes(s, t, k - 1);
      assert t[k - 1] == rows[t[k - 1].id] && t[k - 1] in s;
      NextComes(t, s, k - 1);
      assert s[..k] == s[..k - 1] + [s[k - 1]] && t[..k] == t[..k - 1] + [t[k - 1]];
    }
  }

  ghost predicate Ascending(s: seq<Row>) {
    forall j, k :: 0 <= j < k < |s| ==> s[j].id < s[k].id
  }

  /** After a common beginning, the next row of one listing is no earlier than that of the other. */
  lemma NextComes(s: seq<Row>, t: seq<Row>, k: nat)
    requires Ascending(s) && Ascending(t) && k < |s| && k <= |t| && s[..k] == t[..k] && s[k] in t
    ensures k < |t| && t[k].id <= s[k].id
  {
    var j :| 0 <= j < |t| && t[j] == s[k];
    AlikeBelow(s, t, k);
  }

  lemma AlikeBelow<T>(s: seq<T>, t: seq<T>, k: nat)
    requires k <= |s| && k <= |t| && s[..k] == t[..k]
    ensures forall i :: 0 <= i < k ==> s[i] == t[i]
  {
    assert forall i :: 0 <= i < k ==> s[i] == s[..k][i] && t[i] == t[..k][i];
  }

  /** Ids at or above every committed id add nothing. */
  lemma {:induction false} ThreadBeyond(rows: Table, m: nat, lo: nat, top: nat, hi: nat)
    requires forall i :: i in rows ==> i < top
    ensures Thread(rows, m, lo, hi) == Thread(rows, m, lo, Min(hi, top))
    decreases hi
  {
    if lo < hi && top < hi {
      ThreadBeyond(rows, m, lo, top, hi - 1);
    } else if top < hi {
      assert Thread(rows, m, lo, hi) == [] == Thread(rows, m, lo, top);
    }
  }

  lemma SuffixPage(rows: Table, m: nat, hi: nat, size: nat)
    requires WellKeyed(rows) && size >= 1
    ensures var page := DescendingPage(Thread(rows, m, 0, hi), size);
      && (page.messages == [] ==> Thread(rows, m, 0, hi) == [])
      && BeforeMeaning(rows, m, hi, page) && Filled(page, size, IdsIn(rows, m, 0, hi))
  {
    ThreadSize(rows, m, 0, hi);
    var t := Thread(rows, m, 0, hi);
    var k := |t| - Min(size, |t|);
    DescendingMeaning(t, size);
    if t != [] {
      ThreadCut(rows, m, 0, hi, k);
      assert t[k..][0] == t[k];
      assert k > 0 <==> t[..k] != [];
    }
  }
}
