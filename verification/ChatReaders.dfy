/** Readers of a thread, interleaved with senders: cursor clients and read receipts.
  *
  * A fetch is two events: `Fetch` runs the SELECT, `Respond` stamps the receipts
  * and delivers the page.  Any number of sends may commit in between. */
module ChatReaders {
  import opened Wrappers
  import opened ChatPages
  import opened ChatStore

  /** What a client may request.  The first three follow the cursor contract;
    * `Browse` is any other read, including the page-number API. */
  datatype Ask = AskLatest(size: nat) | AskBefore(size: nat) | AskAfter(size: nat) | Browse(cursor: Cursor, size: nat)

  /** A page on its way to the client; `snapshot` is the whole thread as the SELECT saw it. */
  datatype Pending = Pending(ask: Ask, page: Page, snapshot: seq<Row>)

  /** `held` are the messages the client shows.  It has asked for everything
    * from id `lo` up to id `cursor`; `more` is the last `has_more` it got going
    * back; `first` is the thread at the time of its `latest` read, whose newest
    * id is `top`. */
  datatype Client = Client(
    viewer: nat, thread: nat,
    held: seq<Row>, lo: nat, cursor: nat, more: bool,
    started: bool, first: Option<seq<Row>>, top: nat,
    pending: Option<Pending>)

  datatype ReadEvent =
    | Connect(c: nat, viewer: nat, thread: nat)
    | Fetch(c: nat, ask: Ask)
    | Respond(c: nat, now: nat)
    | Lose(c: nat)

  datatype State = State(store: Store, clients: map<nat, Client>, read: map<nat, nat>, returned: set<(nat, nat)>)

  function CursorOf(k: Client, ask: Ask): Cursor {
    match ask
    case AskLatest(_) => Latest
    case AskBefore(_) => BeforeId(k.lo)
    case AskAfter(_) => AfterId(k.cursor)
    case Browse(cursor, _) => cursor
  }

  /** The client's own rules: `latest` opens the thread, `before_id` follows `has_more`. */
  predicate MayAsk(k: Client, ask: Ask) {
    && k.pending.None? && ask.size >= 1
    && (ask.AskLatest? ==> !k.started)
    && (ask.AskBefore? ==> k.more)
  }

  /** The client side of a response. */
  function Absorb(k: Client, p: Pending): Client {
    var msgs, k := p.page.messages, k.(pending := None);
    match p.ask
    case AskLatest(_) =>
      var k := k.(started := true, first := Some(p.snapshot), more := p.page.hasMore);
      if msgs == [] then k
      else
        var newest := msgs[|msgs| - 1].id;
        k.(held := msgs, lo := msgs[0].id, cursor := newest, top := newest)
    case AskBefore(_) =>
      if msgs == [] then k.(more := p.page.hasMore)
      else k.(held := msgs + k.held, lo := msgs[0].id, more := p.page.hasMore)
    case AskAfter(_) =>
      if msgs == [] then k.(started := true)
      else k.(started := true, held := k.held + msgs, cursor := msgs[|msgs| - 1].id)
    case Browse(_, _) => k
  }

  predicate Marks(rows: Table, m: nat, viewer: nat, msgs: seq<Row>, i: nat) {
    In(rows, m, i) && rows[i].sender != viewer && exists k :: 0 <= k < |msgs| && msgs[k].id == i
  }

  /** The UPDATE of `_mark_fetched_read`: returned counterparty rows not read yet. */
  function MarkRead(read: map<nat, nat>, rows: Table, m: nat, viewer: nat, msgs: seq<Row>, now: nat): map<nat, nat> {
    read + map i | i in rows && i !in read && Marks(rows, m, viewer, msgs, i) :: now
  }

  function Deliver(s: State, e: ReadEvent): State {
    match e
    case Connect(c, viewer, m) =>
      if c in s.clients || !IsParty(s.store.parties, m, viewer) then s
      else s.(clients := s.clients[c := Client(viewer, m, [], 0, 0, false, false, None, 0, None)])
    case Fetch(c, ask) =>
      if c !in s.clients || !MayAsk(s.clients[c], ask) then s
      else
        var k := s.clients[c];
        var page := Read(s.store.rows, k.thread, s.store.nextId, CursorOf(k, ask), ask.size);
        if page.None? then s
        else
          var snapshot := Thread(s.store.rows, k.thread, 0, s.store.nextId);
          s.(clients := s.clients[c := k.(pending := Some(Pending(ask, page.value, snapshot)))])
    case Respond(c, now) =>
      if c !in s.clients || s.clients[c].pending.None? then s
      else
        var k := s.clients[c];
        var msgs := k.pending.value.page.messages;
        s.(clients := s.clients[c := Absorb(k, k.pending.value)],
           read := MarkRead(s.read, s.store.rows, k.thread, k.viewer, msgs, now),
           returned := s.returned + (set r | r in msgs :: (k.viewer, r.id)))
    case Lose(c) =>
      if c !in s.clients then s else s.(clients := s.clients[c := s.clients[c].(pending := None)])
  }

  // ----------------------------------------------------------------------
  // What a client knows
  // ----------------------------------------------------------------------

  /** An id the thread has shown: nothing can commit below it any more. */
  ghost predicate Shown(rows: Table, m: nat, i: nat) {
    i == 0 || In(rows, m, i)
  }

  ghost predicate AllIn(rows: Table, m: nat, msgs: seq<Row>) {
    forall k :: 0 <= k < |msgs| ==> In(rows, m, msgs[k].id)
  }

  ghost predicate PendingOk(rows: Table, k: Client, p: Pending) {
    var m, msgs, more := k.thread, p.page.messages, p.page.hasMore;
    && AllIn(rows, m, msgs)
    && match p.ask
       case AskLatest(_) =>
         && !k.started
         && if msgs == [] then !more && p.snapshot == []
            else
              var newest := msgs[|msgs| - 1].id;
              && Shown(rows, m, newest) && msgs[0].id <= newest
              && msgs == Thread(rows, m, msgs[0].id, newest + 1)
              && p.snapshot == Thread(rows, m, 0, newest + 1)
              && (more <==> Thread(rows, m, 0, msgs[0].id) != [])
       case AskBefore(_) => k.more && BeforeMeaning(rows, m, k.lo, p.page)
       case AskAfter(_) =>
         if msgs == [] then !more && p.snapshot == Thread(rows, m, 0, k.cursor + 1)
         else
           var newest := msgs[|msgs| - 1].id;
           && Shown(rows, m, newest) && k.cursor < newest
           && msgs == Thread(rows, m, k.cursor + 1, newest + 1)
           && (!more ==> p.snapshot == Thread(rows, m, 0, newest + 1))
       case Browse(_, _) => true
  }

  ghost predicate ClientOk(store: Store, k: Client) {
    var rows, m := store.rows, k.thread;
    && IsParty(store.parties, m, k.viewer)
    && Shown(rows, m, k.cursor) && k.lo <= k.cursor + 1
    && k.held == Thread(rows, m, k.lo, k.cursor + 1)
    && (k.more <==> Thread(rows, m, 0, k.lo) != [])
    && (!k.started ==> k.lo == 0 && k.cursor == 0 && k.top == 0 && k.first.None?)
    && (k.first.Some? ==> Shown(rows, m, k.top) && k.top <= k.cursor && k.first.value == Thread(rows, m, 0, k.top + 1))
    && (k.first.None? ==> k.lo == 0)
    && (k.pending.Some? ==> PendingOk(rows, k, k.pending.value))
  }

  /** A commit ahead of a thread leaves every range below the new id alone. */
  lemma CommitKeepsThread(rows: Table, row: Row, m: nat, lo: nat, hi: nat)
    requires m != row.thread || hi <= row.id
    requires row.id !in rows
    ensures Thread(rows[row.id := row], m, lo, hi) == Thread(rows, m, lo, hi)
  {
    ThreadFrame(rows, rows[row.id := row], m, lo, hi);
  }

  lemma CommitKeepsPending(store: Store, row: Row, k: Client, p: Pending)
    requires StoreInv(store) && Ahead(store, row)
    requires Shown(store.rows, k.thread, k.cursor) && k.lo <= k.cursor + 1
    requires PendingOk(store.rows, k, p)
    ensures PendingOk(store.rows[row.id := row], k, p)
  {
    var rows, rows', m := store.rows, store.rows[row.id := row], k.thread;
    var msgs := p.page.messages;
    forall lo: nat, hi: nat | m != row.thread || hi <= row.id
      ensures Thread(rows', m, lo, hi) == Thread(rows, m, lo, hi)
    {
      CommitKeepsThread(rows, row, m, lo, hi);
    }
    forall j | 0 <= j < |msgs|
      ensures In(rows', m, msgs[j].id) && (m == row.thread ==> msgs[j].id < row.id)
    {
      assert In(rows, m, msgs[j].id);
    }
  }

  /** Committing the next row of a thread cannot disturb what clients of any thread know. */
  lemma CommitKeepsClient(store: Store, store': Store, row: Row, k: Client)
    requires StoreInv(store) && Ahead(store, row) && store'.rows == store.rows[row.id := row]
    requires store'.parties == store.parties
    requires ClientOk(store, k)
    ensures ClientOk(store', k)
  {
    var rows, m := store.rows, k.thread;
    assert m == row.thread ==> k.lo <= k.cursor + 1 <= row.id;
    CommitKeepsThread(rows, row, m, k.lo, k.cursor + 1);
    CommitKeepsThread(rows, row, m, 0, k.lo);
    if k.first.Some? {
      CommitKeepsThread(rows, row, m, 0, k.top + 1);
    }
    if k.pending.Some? {
      CommitKeepsPending(store, row, k, k.pending.value);
    }
  }

  /** A SELECT on the current table gives a page that `PendingOk` describes. */
  lemma AskOk(store: Store, k: Client, ask: Ask)
    requires StoreInv(store) && ClientOk(store, k) && MayAsk(k, ask)
    requires Read(store.rows, k.thread, store.nextId, CursorOf(k, ask), ask.size).Some?
    ensures var page := Read(store.rows, k.thread, store.nextId, CursorOf(k, ask), ask.size).value;
      PendingOk(store.rows, k, Pending(ask, page, Thread(store.rows, k.thread, 0, store.nextId)))
  {
    var rows, m, top := store.rows, k.thread, store.nextId;
    var page := Read(rows, m, top, CursorOf(k, ask), ask.size).value;
    PageRowsIn(rows, m, top, CursorOf(k, ask), ask.size);
    match ask
    case AskLatest(size) => AskLatestOk(store, k, size);
    case AskBefore(size) => BeforeRead(rows, m, top, k.lo, size);
    case AskAfter(size) => AskAfterOk(store, k, size);
    case Browse(_, _) =>
  }

  lemma AskLatestOk(store: Store, k: Client, size: nat)
    requires Below(store.rows, store.nextId) && size >= 1 && !k.started
    requires AllIn(store.rows, k.thread, Read(store.rows, k.thread, store.nextId, Latest, size).value.messages)
    ensures var page := Read(store.rows, k.thread, store.nextId, Latest, size).value;
      PendingOk(store.rows, k, Pending(AskLatest(size), page, Thread(store.rows, k.thread, 0, store.nextId)))
  {
    var rows, m, top := store.rows, k.thread, store.nextId;
    LatestRead(rows, m, top, size);
    var msgs := Read(rows, m, top, Latest, size).value.messages;
    if msgs != [] {
      LatestNewest(rows, m, top, msgs[0].id, msgs);
    }
  }

  lemma AskAfterOk(store: Store, k: Client, size: nat)
    requires Below(store.rows, store.nextId) && size >= 1 && Shown(store.rows, k.thread, k.cursor) && store.nextId >= 1
    requires AllIn(store.rows, k.thread,
                   Read(store.rows, k.thread, store.nextId, AfterId(k.cursor), size).value.messages)
    ensures var page := Read(store.rows, k.thread, store.nextId, AfterId(k.cursor), size).value;
      PendingOk(store.rows, k, Pending(AskAfter(size), page, Thread(store.rows, k.thread, 0, store.nextId)))
  {
    var rows, m, top := store.rows, k.thread, store.nextId;
    AfterRead(rows, m, top, k.cursor, size);
    var msgs := Read(rows, m, top, AfterId(k.cursor), size).value.messages;
    var newest := if msgs == [] then k.cursor else msgs[|msgs| - 1].id;
    ThreadSplit(rows, m, 0, newest + 1, top);
  }

  lemma LatestNewest(rows: Table, m: nat, top: nat, from: nat, msgs: seq<Row>)
    requires Below(rows, top) && msgs != [] && msgs == Thread(rows, m, from, top) && msgs[0].id == from
    ensures var newest := msgs[|msgs| - 1].id;
      && from <= newest < top
      && msgs == Thread(rows, m, from, newest + 1) && Thread(rows, m, 0, top) == Thread(rows, m, 0, newest + 1)
  {
    ThreadCut(rows, m, from, top, |msgs| - 1);
    var newest := msgs[|msgs| - 1].id;
    assert msgs[..|msgs|] == msgs;
    assert Thread(rows, m, newest + 1, top) == [];
    ThreadSplit(rows, m, 0, newest + 1, top);
  }

  /** Every row of any page is a committed row of the thread. */
  lemma PageRowsIn(rows: Table, m: nat, top: nat, cursor: Cursor, size: nat)
    requires Below(rows, top) && Read(rows, m, top, cursor, size).Some?
    ensures AllIn(rows, m, Read(rows, m, top, cursor, size).value.messages)
  {
    match cursor
    case Latest =>
      AllThreadIn(rows, m, 0, top);
      DescendingIn(rows, m, Thread(rows, m, 0, top), size);
    case BeforeId(b) =>
      AllThreadIn(rows, m, 0, Min(b, top));
      DescendingIn(rows, m, Thread(rows, m, 0, Min(b, top)), size);
    case AfterId(a) =>
      AllThreadIn(rows, m, a + 1, top);
      AscendingIn(rows, m, Thread(rows, m, a + 1, top), 0, size);
      assert Thread(rows, m, a + 1, top)[0..] == Thread(rows, m, a + 1, top);
    case PageNo(p) =>
      AllThreadIn(rows, m, 0, top);
      AscendingIn(rows, m, Thread(rows, m, 0, top), Min(Skipped(p, size), |Thread(rows, m, 0, top)|), size);
  }

  lemma DescendingIn(rows: Table, m: nat, found: seq<Row>, size: nat)
    requires AllIn(rows, m, found)
    ensures AllIn(rows, m, DescendingPage(found, size).messages)
  {
  }

  lemma AscendingIn(rows: Table, m: nat, found: seq<Row>, from: nat, size: nat)
    requires AllIn(rows, m, found) && from <= |found|
    ensures AllIn(rows, m, AscendingPage(found[from..], size).messages)
  {
  }

  lemma {:induction false} AllThreadIn(rows: Table, m: nat, lo: nat, hi: nat)
    requires WellKeyed(rows)
    ensures AllIn(rows, m, Thread(rows, m, lo, hi))
    decreases hi
  {
    if lo < hi {
      AllThreadIn(rows, m, lo, hi - 1);
    }
  }

  /** Taking in a page keeps the client's knowledge, however late it arrives. */
  lemma AbsorbOk(store: Store, k: Client)
    requires StoreInv(store) && ClientOk(store, k) && k.pending.Some?
    ensures ClientOk(store, Absorb(k, k.pending.value))
  {
    match k.pending.value.ask
    case AskLatest(_) => AbsorbLatestOk(store, k);
    case AskBefore(_) => AbsorbBeforeOk(store, k);
    case AskAfter(_) => AbsorbAfterOk(store, k);
    case Browse(_, _) =>
  }

  lemma AbsorbLatestOk(store: Store, k: Client)
    requires RowsOk(store) && ClientOk(store, k) && k.pending.Some? && k.pending.value.ask.AskLatest?
    ensures ClientOk(store, Absorb(k, k.pending.value))
  {
  }

  lemma AbsorbBeforeOk(store: Store, k: Client)
    requires RowsOk(store) && ClientOk(store, k) && k.pending.Some? && k.pending.value.ask.AskBefore?
    ensures ClientOk(store, Absorb(k, k.pending.value))
  {
    var rows, m, msgs := store.rows, k.thread, k.pending.value.page.messages;
    if msgs != [] {
      ThreadSplit(rows, m, msgs[0].id, k.lo, k.cursor + 1);
    }
  }

  lemma AbsorbAfterOk(store: Store, k: Client)
    requires RowsOk(store) && ClientOk(store, k) && k.pending.Some? && k.pending.value.ask.AskAfter?
    ensures ClientOk(store, Absorb(k, k.pending.value))
  {
    var rows, m, msgs := store.rows, k.thread, k.pending.value.page.messages;
    if msgs != [] {
      var newest := msgs[|msgs| - 1].id;
      ThreadSplit(rows, m, k.lo, k.cursor + 1, newest + 1);
    }
  }

  // ----------------------------------------------------------------------
  // Receipts
  // ----------------------------------------------------------------------

  /** A message is read exactly when a fetch by the other party returned it. */
  ghost predicate ReceiptsOk(s: State) {
    ReceiptsMatch(s.store.parties, s.store.rows, s.read, s.returned)
  }

  lemma RespondKeepsReceipts(s: State, c: nat, now: nat)
    requires StoreInv(s.store) && ReceiptsOk(s)
    requires c in s.clients && ClientOk(s.store, s.clients[c]) && s.clients[c].pending.Some?
    ensures ReceiptsOk(Deliver(s, Respond(c, now)))
  {
    var k := s.clients[c];
    var msgs := k.pending.value.page.messages;
    assert AllIn(s.store.rows, k.thread, msgs);
    MarksKeep(s.store.parties, s.store.rows, s.read, s.returned, k.thread, k.viewer, msgs, now);
  }

  ghost predicate ReceiptsMatch(parties: map<nat, (nat, nat)>, rows: Table, read: map<nat, nat>,
                                returned: set<(nat, nat)>)
  {
    && (forall x :: x in returned ==> x.1 in rows)
    && (forall x :: x in returned && x.0 != rows[x.1].sender ==> x.1 in read)
    && (forall i :: i in read ==> i in rows)
    && (forall i, v :: i in read && IsParty(parties, rows[i].thread, v) && v != rows[i].sender ==> (v, i) in returned)
  }

  lemma MarksKeep(parties: map<nat, (nat, nat)>, rows: Table, read: map<nat, nat>, returned: set<(nat, nat)>,
                  m: nat, viewer: nat, msgs: seq<Row>, now: nat)
    requires ReceiptsMatch(parties, rows, read, returned)
    requires AllIn(rows, m, msgs) && IsParty(parties, m, viewer)
    requires forall i :: i in rows ==> IsParty(parties, rows[i].thread, rows[i].sender)
    ensures ReceiptsMatch(parties, rows, MarkRead(read, rows, m, viewer, msgs, now),
                          returned + (set r | r in msgs :: (viewer, r.id)))
  {
    var read' := MarkRead(read, rows, m, viewer, msgs, now);
    var returned' := returned + (set r | r in msgs :: (viewer, r.id));
    forall x | x in returned' && x.0 != rows[x.1].sender
      ensures x.1 in read'
    {
      if x !in returned {
        var r :| r in msgs && x == (viewer, r.id);
        assert Marks(rows, m, viewer, msgs, x.1);
      }
    }
    forall i, v | i in read' && IsParty(parties, rows[i].thread, v) && v != rows[i].sender
      ensures (v, i) in returned'
    {
      if i !in read {
        var j :| 0 <= j < |msgs| && msgs[j].id == i;
        assert msgs[j] in msgs;
        assert v == viewer;
      }
    }
  }

  // ----------------------------------------------------------------------
  // Whole runs
  // ----------------------------------------------------------------------

  datatype Event = Sender(s: SendEvent) | Reader(r: ReadEvent)

  function Step(s: State, e: Event): State {
    match e
    case Sender(x) => s.(store := Send(s.store, x))
    case Reader(x) => Deliver(s, x)
  }

  function Run(s: State, es: seq<Event>): State
    decreases |es|
  {
    if es == [] then s else Run(Step(s, es[0]), es[1..])
  }

  /** An empty message table for the given matches. */
  function Start(parties: map<nat, (nat, nat)>): State {
    State(Store(parties, map[], 1, [], map[], map[], map[]), map[], map[], {})
  }

  ghost predicate Inv(s: State) {
    && StoreInv(s.store) && ReceiptsOk(s)
    && forall c :: c in s.clients ==> ClientOk(s.store, s.clients[c])
  }

  /** The store moves on under the clients: at most one row more, ahead of its thread. */
  lemma StoreMoves(s: State, store': Store, row: Row)
    requires Inv(s) && StoreInv(store') && store'.parties == s.store.parties
    requires Ahead(s.store, row) && store'.rows == s.store.rows[row.id := row]
    ensures Inv(s.(store := store'))
  {
    forall c | c in s.clients
      ensures ClientOk(store', s.clients[c])
    {
      CommitKeepsClient(s.store, store', row, s.clients[c]);
    }
  }

  lemma StoreStays(s: State, store': Store)
    requires Inv(s) && StoreInv(store') && store'.parties == s.store.parties && store'.rows == s.store.rows
    ensures Inv(s.(store := store'))
  {
  }

  lemma SenderKeeps(s: State, e: SendEvent)
    requires Inv(s)
    ensures Inv(s.(store := Send(s.store, e)))
  {
    var store' := Send(s.store, e);
    SendKeeps(s.store, e);
    SendShows(s.store, e);
    if store'.rows == s.store.rows {
      StoreStays(s, store');
    } else {
      var row :| Ahead(s.store, row) && store'.rows == s.store.rows[row.id := row];
      StoreMoves(s, store', row);
    }
  }

  lemma ClientMoves(s: State, c: nat, k: Client)
    requires Inv(s) && ClientOk(s.store, k)
    ensures Inv(s.(clients := s.clients[c := k]))
  {
  }

  lemma ReaderKeeps(s: State, e: ReadEvent)
    requires Inv(s)
    ensures Inv(Deliver(s, e))
  {
    match e
    case Connect(c, viewer, m) => ConnectKeeps(s, c, viewer, m);
    case Fetch(c, ask) => FetchKeeps(s, c, ask);
    case Respond(c, now) => RespondKeeps(s, c, now);
    case Lose(c) => LoseKeeps(s, c);
  }

  lemma ConnectKeeps(s: State, c: nat, viewer: nat, m: nat)
    requires Inv(s)
    ensures Inv(Deliver(s, Connect(c, viewer, m)))
  {
    if c !in s.clients && IsParty(s.store.parties, m, viewer) {
      var k := Client(viewer, m, [], 0, 0, false, false, None, 0, None);
      assert 0 !in s.store.rows;
      assert Thread(s.store.rows, m, 0, 0) == [] && Thread(s.store.rows, m, 0, 1) == [];
      ClientMoves(s, c, k);
    }
  }

  lemma LoseKeeps(s: State, c: nat)
    requires Inv(s)
    ensures Inv(Deliver(s, Lose(c)))
  {
    if c in s.clients {
      PendingDrops(s.store, s.clients[c]);
      ClientMoves(s, c, s.clients[c].(pending := None));
    }
  }

  lemma PendingDrops(store: Store, k: Client)
    requires ClientOk(store, k)
    ensures ClientOk(store, k.(pending := None))
  {
  }

  lemma FetchKeeps(s: State, c: nat, ask: Ask)
    requires Inv(s)
    ensures Inv(Deliver(s, Fetch(c, ask)))
  {
    if c in s.clients && MayAsk(s.clients[c], ask) {
      var k := s.clients[c];
      var page := Read(s.store.rows, k.thread, s.store.nextId, CursorOf(k, ask), ask.size);
      if page.Some? {
        var p := Pending(ask, page.value, Thread(s.store.rows, k.thread, 0, s.store.nextId));
        AskOk(s.store, k, ask);
        PendingMoves(s, c, p);
      }
    }
  }

  lemma PendingMoves(s: State, c: nat, p: Pending)
    requires Inv(s) && c in s.clients && PendingOk(s.store.rows, s.clients[c], p)
    ensures Inv(s.(clients := s.clients[c := s.clients[c].(pending := Some(p))]))
  {
    PendingJoins(s.store, s.clients[c], p);
    ClientMoves(s, c, s.clients[c].(pending := Some(p)));
  }

  lemma PendingJoins(store: Store, k: Client, p: Pending)
    requires ClientOk(store, k) && PendingOk(store.rows, k, p)
    ensures ClientOk(store, k.(pending := Some(p)))
  {
  }

  lemma RespondKeeps(s: State, c: nat, now: nat)
    requires Inv(s)
    ensures Inv(Deliver(s, Respond(c, now)))
  {
    if c in s.clients && s.clients[c].pending.Some? {
      AbsorbOk(s.store, s.clients[c]);
      RespondKeepsReceipts(s, c, now);
    }
  }

  lemma StepKeeps(s: State, e: Event)
    requires Inv(s)
    ensures Inv(Step(s, e))
  {
    match e
    case Sender(x) => SenderKeeps(s, x);
    case Reader(x) => ReaderKeeps(s, x);
  }

  lemma {:induction false} RunKeeps(s: State, es: seq<Event>)
    requires Inv(s)
    ensures Inv(Run(s, es))
    decreases |es|
  {
    if es != [] {
      StepKeeps(s, es[0]);
      RunKeeps(Step(s, es[0]), es[1..]);
    }
  }
}
