/** What the chat endpoints promise, over every run: any number of senders on
  * any number of matches, interleaved step by step with any number of readers. */
module ChatSafety {
  import opened Wrappers
  import opened ChatPages
  import opened ChatStore
  import opened ChatReaders

  /** Every reachable state satisfies the invariant. */
  lemma Reachable(parties: map<nat, (nat, nat)>, es: seq<Event>)
    ensures Inv(Run(Start(parties), es))
  {
    RunKeeps(Start(parties), es);
  }

  /** A client that starts at `after_id=0` and moves only to the returned
    * `latest_id` holds exactly the committed messages up to its cursor, in
    * order, without gap or duplicate. */
  lemma CursorNeverMisses(parties: map<nat, (nat, nat)>, es: seq<Event>, c: nat)
    requires var s := Run(Start(parties), es); c in s.clients && s.clients[c].first.None?
    ensures var s := Run(Start(parties), es);
      Lists(s.clients[c].held, s.store.rows, s.clients[c].thread, 0, s.clients[c].cursor + 1)
  {
    Reachable(parties, es);
    var s := Run(Start(parties), es);
    ThreadContents(s.store.rows, s.clients[c].thread, 0, s.clients[c].cursor + 1);
  }

  /** A client that opened with `latest` and followed `before_id` until
    * `has_more` was false holds the whole thread up to its cursor, and it
    * begins with exactly the messages committed at its first read. */
  lemma BackfillComplete(parties: map<nat, (nat, nat)>, es: seq<Event>, c: nat)
    requires var s := Run(Start(parties), es); c in s.clients && s.clients[c].first.Some? && !s.clients[c].more
    ensures var s := Run(Start(parties), es); var k := s.clients[c];
      && k.first.value <= k.held
      && Lists(k.held, s.store.rows, k.thread, 0, k.cursor + 1)
  {
    Reachable(parties, es);
    var s := Run(Start(parties), es);
    BackfillHolds(s.store, s.clients[c]);
  }

  lemma BackfillHolds(store: Store, k: Client)
    requires RowsOk(store) && ClientOk(store, k) && k.first.Some? && !k.more
    ensures k.first.value <= k.held && Lists(k.held, store.rows, k.thread, 0, k.cursor + 1)
  {
    ThreadContents(store.rows, k.thread, 0, k.cursor + 1);
    WholeThread(store, k);
    ThreadSplit(store.rows, k.thread, 0, k.top + 1, k.cursor + 1);
  }

  lemma WholeThread(store: Store, k: Client)
    requires ClientOk(store, k) && !k.more
    ensures k.held == Thread(store.rows, k.thread, 0, k.cursor + 1)
  {
    ThreadSplit(store.rows, k.thread, 0, k.lo, k.cursor + 1);
  }

  /** The `first` a client remembers is the thread as its `latest` SELECT saw it. */
  lemma FirstIsTheThread(s: State, c: nat, size: nat)
    requires Inv(s) && c in s.clients && MayAsk(s.clients[c], AskLatest(size))
    ensures var s' := Step(s, Reader(Fetch(c, AskLatest(size)))); var k := s'.clients[c];
      && k.pending.Some?
      && Lists(k.pending.value.snapshot, s.store.rows, k.thread, 0, s.store.nextId)
      && Absorb(k, k.pending.value).first == Some(k.pending.value.snapshot)
  {
    ThreadContents(s.store.rows, s.clients[c].thread, 0, s.store.nextId);
  }

  /** A caught-up client whose poll comes back without `has_more` then shows the
    * whole thread, once, as it was when that poll ran. */
  lemma PollCatchesUp(parties: map<nat, (nat, nat)>, es: seq<Event>, c: nat)
    requires var s := Run(Start(parties), es);
      && c in s.clients && !s.clients[c].more && s.clients[c].pending.Some?
      && s.clients[c].pending.value.ask.AskAfter? && !s.clients[c].pending.value.page.hasMore
    ensures var k := Run(Start(parties), es).clients[c];
      Absorb(k, k.pending.value).held == k.pending.value.snapshot
  {
    Reachable(parties, es);
    var s := Run(Start(parties), es);
    PollHolds(s.store, s.clients[c]);
  }

  lemma PollHolds(store: Store, k: Client)
    requires ClientOk(store, k) && !k.more && k.pending.Some?
    requires k.pending.value.ask.AskAfter? && !k.pending.value.page.hasMore
    ensures Absorb(k, k.pending.value).held == k.pending.value.snapshot
  {
    var msgs := k.pending.value.page.messages;
    WholeThread(store, k);
    if msgs != [] {
      ThreadSplit(store.rows, k.thread, 0, k.cursor + 1, msgs[|msgs| - 1].id + 1);
    }
  }

  // ----------------------------------------------------------------------
  // Going back terminates
  // ----------------------------------------------------------------------

  /** Committed messages the client has still to fetch going back. */
  ghost function Backlog(s: State, c: nat): nat {
    if c in s.clients then |Thread(s.store.rows, s.clients[c].thread, 0, s.clients[c].lo)| else 0
  }

  ghost predicate BeforeReply(s: State, e: Event, c: nat) {
    && e.Reader? && e.r.Respond? && e.r.c == c && c in s.clients
    && s.clients[c].pending.Some? && s.clients[c].pending.value.ask.AskBefore?
  }

  /** Sends never add to the backlog; each `before_id` reply takes its page off it. */
  lemma BackfillStep(s: State, e: Event, c: nat)
    requires Inv(s) && c in s.clients && s.clients[c].started
    ensures var s' := Step(s, e);
      && c in s'.clients && s'.clients[c].started
      && Backlog(s', c) + (if BeforeReply(s, e, c) then |s.clients[c].pending.value.page.messages| else 0)
          == Backlog(s, c)
      && (BeforeReply(s, e, c) ==> s.clients[c].pending.value.page.messages != [])
  {
    var k := s.clients[c];
    assert ClientOk(s.store, k);
    match e
    case Sender(x) => SendKeepsOlder(s.store, x, k);
    case Reader(x) => ReaderBacklog(s, x, c);
  }

  lemma ReaderBacklog(s: State, x: ReadEvent, c: nat)
    requires c in s.clients && ClientOk(s.store, s.clients[c]) && s.clients[c].started
    ensures var s' := Deliver(s, x); var e := Reader(x);
      && c in s'.clients && s'.clients[c].started
      && Backlog(s', c) + (if BeforeReply(s, e, c) then |s.clients[c].pending.value.page.messages| else 0)
          == Backlog(s, c)
      && (BeforeReply(s, e, c) ==> s.clients[c].pending.value.page.messages != [])
  {
    var k := s.clients[c];
    if x.Respond? && x.c == c && k.pending.Some? {
      var p := k.pending.value;
      assert PendingOk(s.store.rows, k, p);
      match p.ask
      case AskBefore(_) => BeforeReplyShrinks(s.store, k);
      case _ =>
    }
  }

  lemma SendKeepsOlder(store: Store, e: SendEvent, k: Client)
    requires StoreInv(store) && ClientOk(store, k)
    ensures Thread(Send(store, e).rows, k.thread, 0, k.lo) == Thread(store.rows, k.thread, 0, k.lo)
  {
    SendShows(store, e);
    if Send(store, e).rows != store.rows {
      var row :| Ahead(store, row) && Send(store, e).rows == store.rows[row.id := row];
      CommitKeepsThread(store.rows, row, k.thread, 0, k.lo);
    }
  }

  lemma BeforeReplyShrinks(store: Store, k: Client)
    requires ClientOk(store, k) && k.pending.Some? && k.pending.value.ask.AskBefore?
    ensures var msgs := k.pending.value.page.messages;
      && msgs != []
      && |Thread(store.rows, k.thread, 0, Absorb(k, k.pending.value).lo)| + |msgs|
          == |Thread(store.rows, k.thread, 0, k.lo)|
  {
    var msgs := k.pending.value.page.messages;
    assert PendingOk(store.rows, k, k.pending.value);
    ThreadSplit(store.rows, k.thread, 0, msgs[0].id, k.lo);
  }

  ghost function BeforeReplies(s: State, es: seq<Event>, c: nat): nat
    decreases |es|
  {
    if es == [] then 0
    else (if BeforeReply(s, es[0], c) then 1 else 0) + BeforeReplies(Step(s, es[0]), es[1..], c)
  }

  /** However sends and other readers interleave, a client gets at most as many
    * non-final `before_id` pages as there were messages left at its first read. */
  lemma {:induction false} BackfillTerminates(s: State, es: seq<Event>, c: nat)
    requires Inv(s) && c in s.clients && s.clients[c].started
    ensures BeforeReplies(s, es, c) + Backlog(Run(s, es), c) <= Backlog(s, c)
    decreases |es|
  {
    if es != [] {
      BackfillStep(s, es[0], c);
      StepKeeps(s, es[0]);
      BackfillTerminates(Step(s, es[0]), es[1..], c);
    }
  }

  lemma TwoSteps(s: State, e: Event, f: Event, c: nat)
    ensures Run(s, [e, f]) == Step(Step(s, e), f)
    ensures BeforeReplies(s, [e, f], c) ==
      (if BeforeReply(s, e, c) then 1 else 0) + if BeforeReply(Step(s, e), f, c) then 1 else 0
  {
    var t := Step(s, e);
    assert [e, f][1..] == [f] && [f][1..] == [];
    assert Run(t, [f]) == Run(Step(t, f), []);
    assert BeforeReplies(t, [f], c) == (if BeforeReply(t, f, c) then 1 else 0) + BeforeReplies(Step(t, f), [], c);
  }

  /** While `has_more` holds, the client can always ask again and gets messages. */
  lemma BackfillProceeds(s: State, c: nat, size: nat, now: nat)
    requires Inv(s) && c in s.clients && s.clients[c].more && s.clients[c].pending.None? && size >= 1
    ensures BeforeReplies(s, [Reader(Fetch(c, AskBefore(size))), Reader(Respond(c, now))], c) == 1
    ensures Backlog(Run(s, [Reader(Fetch(c, AskBefore(size))), Reader(Respond(c, now))]), c) < Backlog(s, c)
  {
    var ask, reply := Reader(Fetch(c, AskBefore(size))), Reader(Respond(c, now));
    var t := Step(s, ask);
    TwoSteps(s, ask, reply, c);
    AsksBefore(s, c, size);
    FetchKeeps(s, c, AskBefore(size));
    BackfillStep(t, reply, c);
  }

  lemma AsksBefore(s: State, c: nat, size: nat)
    requires c in s.clients && ClientOk(s.store, s.clients[c]) && s.clients[c].more && s.clients[c].pending.None? &&
      size >= 1
    ensures var t := Step(s, Reader(Fetch(c, AskBefore(size))));
      && c in t.clients && t.clients[c].started && t.clients[c].pending.Some?
      && t.clients[c].pending.value.ask.AskBefore? && Backlog(t, c) == Backlog(s, c)
  {
    assert Thread(s.store.rows, s.clients[c].thread, 0, 0) == [];
  }

  // ----------------------------------------------------------------------
  // Receipts and the unread count
  // ----------------------------------------------------------------------

  /** `ChatThreadsView`: unread counterparty messages of a thread. */
  function Unread(s: State, m: nat, viewer: nat): set<nat> {
    set i | i in s.store.rows && s.store.rows[i].thread == m && s.store.rows[i].sender != viewer && i !in s.read
  }

  /** In every reachable state a party's unread messages are exactly the
    * counterparty messages no fetch has returned to that party. */
  lemma UnreadIsNeverReturned(parties: map<nat, (nat, nat)>, es: seq<Event>, m: nat, viewer: nat)
    requires IsParty(parties, m, viewer)
    ensures var s := Run(Start(parties), es);
      Unread(s, m, viewer) == set i | i in s.store.rows && s.store.rows[i].thread == m
        && s.store.rows[i].sender != viewer && (viewer, i) !in s.returned
  {
    Reachable(parties, es);
    PartiesFixed(Start(parties), es);
    var s := Run(Start(parties), es);
    forall i | i in s.store.rows && s.store.rows[i].thread == m && s.store.rows[i].sender != viewer
      ensures i in s.read <==> (viewer, i) in s.returned
    {
      if (viewer, i) in s.returned {
        assert (viewer, i).1 in s.read;
      }
    }
  }

  lemma {:induction false} PartiesFixed(s: State, es: seq<Event>)
    ensures Run(s, es).store.parties == s.store.parties
    decreases |es|
  {
    if es != [] {
      PartiesFixed(Step(s, es[0]), es[1..]);
    }
  }

  /** A receipt is stamped only while delivering that message to the other
    * party, and a stamp never changes or disappears. */
  lemma ReceiptStep(s: State, e: Event, i: nat)
    ensures var s' := Step(s, e);
      && (i in s.read ==> i in s'.read && s'.read[i] == s.read[i])
      && (i !in s.read && i in s'.read ==>
          && e.Reader? && e.r.Respond? && e.r.c in s.clients && s'.read[i] == e.r.now
          && s.clients[e.r.c].pending.Some?
          && s.clients[e.r.c].viewer != s.store.rows[i].sender
          && exists k :: 0 <= k < |s.clients[e.r.c].pending.value.page.messages| &&
              s.clients[e.r.c].pending.value.page.messages[k].id == i)
  {
    match e
    case Sender(_) =>
    case Reader(x) =>
      match x {
        case Respond(c, now) =>
          if c in s.clients && s.clients[c].pending.Some? {
            var k := s.clients[c];
            MarkedRead(s.read, s.store.rows, k.thread, k.viewer, k.pending.value.page.messages, now, i);
          }
        case _ =>
      }
  }

  lemma MarkedRead(read: map<nat, nat>, rows: Table, m: nat, viewer: nat, msgs: seq<Row>, now: nat, i: nat)
    ensures var read' := MarkRead(read, rows, m, viewer, msgs, now);
      && (i in read ==> i in read' && read'[i] == read[i])
      && (i !in read && i in read' ==>
            && read'[i] == now && i in rows && viewer != rows[i].sender
            && exists k :: 0 <= k < |msgs| && msgs[k].id == i)
  {
  }

  lemma {:induction false} ReceiptsPermanent(s: State, es: seq<Event>, i: nat)
    requires Inv(s) && i in s.read
    ensures i in Run(s, es).read && Run(s, es).read[i] == s.read[i]
    decreases |es|
  {
    if es != [] {
      ReceiptStep(s, es[0], i);
      StepKeeps(s, es[0]);
      ReceiptsPermanent(Step(s, es[0]), es[1..], i);
    }
  }

  // ----------------------------------------------------------------------
  // Idempotent sends
  // ----------------------------------------------------------------------

  lemma StepKeepsRow(s: State, e: Event, i: nat)
    requires StoreInv(s.store) && i in s.store.rows
    ensures i in Step(s, e).store.rows && Step(s, e).store.rows[i] == s.store.rows[i]
  {
    match e
    case Sender(x) => SendShows(s.store, x);
    case Reader(x) =>
  }

  lemma {:induction false} RowsPermanent(s: State, es: seq<Event>, i: nat)
    requires Inv(s) && i in s.store.rows
    ensures i in Run(s, es).store.rows && Run(s, es).store.rows[i] == s.store.rows[i]
    decreases |es|
  {
    if es != [] {
      StepKeepsRow(s, es[0], i);
      StepKeeps(s, es[0]);
      RowsPermanent(Step(s, es[0]), es[1..], i);
    }
  }

  lemma {:induction false} RunJoined(s: State, a: seq<Event>, b: seq<Event>)
    ensures Run(s, a + b) == Run(Run(s, a), b)
    decreases |a|
  {
    if a == [] {
      assert a + b == b;
    } else {
      assert (a + b)[1..] == a[1..] + b;
      RunJoined(Step(s, a[0]), a[1..], b);
    }
  }

  /** In this run transaction `t` took the lock of its thread to send `r`. */
  ghost predicate Began(parties: map<nat, (nat, nat)>, es: seq<Event>, t: nat, r: Request) {
    exists i :: 0 <= i < |es| && BeganAt(parties, es, i, t, r)
  }

  ghost predicate BeganAt(parties: map<nat, (nat, nat)>, es: seq<Event>, i: nat, t: nat, r: Request)
    requires i < |es|
  {
    es[i] == Sender(Begin(t, r)) && MayBegin(Run(Start(parties), es[..i]).store, t, r)
  }

  lemma ServesStep(s: State, e: Event, t: nat, r: Request)
    requires StoreInv(s.store) && Serves(s.store, t, r)
    ensures Serves(Step(s, e).store, t, r)
  {
    match e
    case Sender(x) => ServesStill(s.store, x, t, r);
    case Reader(_) =>
  }

  lemma {:induction false} ServesOn(s: State, es: seq<Event>, t: nat, r: Request)
    requires Inv(s) && Serves(s.store, t, r)
    ensures Serves(Run(s, es).store, t, r)
    decreases |es|
  {
    if es != [] {
      StepKeeps(s, es[0]);
      ServesStep(s, es[0], t, r);
      ServesOn(Step(s, es[0]), es[1..], t, r);
    }
  }

  lemma BeganServes(parties: map<nat, (nat, nat)>, es: seq<Event>, t: nat, r: Request)
    requires Began(parties, es, t, r)
    ensures Serves(Run(Start(parties), es).store, t, r)
  {
    var i :| 0 <= i < |es| && BeganAt(parties, es, i, t, r);
    var s := Run(Start(parties), es[..i]);
    Reachable(parties, es[..i]);
    assert es == es[..i] + es[i..] && es[i..][0] == es[i] && es[i..][1..] == es[i + 1..];
    RunJoined(Start(parties), es[..i], es[i..]);
    BeginServes(s.store, t, r);
    StepKeeps(s, es[i]);
    ServesOn(Step(s, es[i]), es[i + 1..], t, r);
  }

  /** In every run, the answer to a send tells what became of what was sent: it stands in the table as a new row with
    * exactly the thread, sender, body and client id of the request; it is there already; or another body is. */
  lemma AnswersTell(parties: map<nat, (nat, nat)>, es: seq<Event>, t: nat, r: Request)
    requires Began(parties, es, t, r) && t !in Run(Start(parties), es).store.txns
    ensures var store := Run(Start(parties), es).store; t in store.answers && Tells(store.rows, store.answers[t], r)
  {
    BeganServes(parties, es, t, r);
  }

  predicate SameCreation(a: Answer, b: Answer) {
    a.Created? && b.Created? && a.row.id == b.row.id
  }

  /** Each creation answered has its own row. */
  ghost predicate CreatedApart(store: Store) {
    && (forall t :: t in store.answers && store.answers[t].Created? ==> store.answers[t].row.id in store.rows)
    && (forall t, u :: t in store.answers && u in store.answers && SameCreation(store.answers[t], store.answers[u])
          ==> t == u)
  }

  lemma CreatedStep(s: State, e: Event)
    requires StoreInv(s.store) && CreatedApart(s.store)
    ensures CreatedApart(Step(s, e).store)
  {
    match e
    case Sender(x) => CreatedSend(s.store, x);
    case Reader(_) =>
  }

  lemma CreatedSend(store: Store, e: SendEvent)
    requires StoreInv(store) && CreatedApart(store)
    ensures CreatedApart(Send(store, e))
  {
    RowsStay(store, e);
    SendEffect(store, e);
    assert Commits(store, e) ==> TxnOk(store, e.t) && store.txns[e.t].phase.row.id !in store.rows;
    forall t | t in Send(store, e).answers
      ensures var answer := Send(store, e).answers[t];
        || (t in store.answers && answer == store.answers[t])
        || (t == e.t && (answer.Created? ==> Commits(store, e) && answer.row == store.txns[t].phase.row))
    {
      AnswersGiven(store, e, t);
    }
  }

  lemma {:induction false} CreatedOn(s: State, es: seq<Event>)
    requires Inv(s) && CreatedApart(s.store)
    ensures CreatedApart(Run(s, es).store)
    decreases |es|
  {
    if es != [] {
      StepKeeps(s, es[0]);
      CreatedStep(s, es[0]);
      CreatedOn(Step(s, es[0]), es[1..]);
    }
  }

  lemma OneRowPerKey(store: Store, a: Row, b: Row)
    requires RowsOk(store) && a.id in store.rows && store.rows[a.id] == a && b.id in store.rows && store.rows[b.id] == b
    requires a.thread == b.thread && a.sender == b.sender && a.clientId == b.clientId && a.clientId.Some?
    ensures a.id == b.id
  {
    if a.id != b.id {
      assert SameRetry(store.rows[a.id], store.rows[b.id]);
    }
  }

  lemma ReachableKeys(parties: map<nat, (nat, nat)>, es: seq<Event>)
    ensures var store := Run(Start(parties), es).store; RowsOk(store) && CreatedApart(store)
  {
    Reachable(parties, es);
    CreatedOn(Start(parties), es);
  }

  lemma CreatedIs(parties: map<nat, (nat, nat)>, es: seq<Event>, t: nat, r: Request)
    requires Began(parties, es, t, r)
    requires var answers := Run(Start(parties), es).store.answers; t in answers && answers[t].Created?
    ensures var store := Run(Start(parties), es).store; Tells(store.rows, store.answers[t], r) && t !in store.txns
  {
    BeganServes(parties, es, t, r);
  }

  /** The same match, sender and client id, and maybe another body. */
  predicate SameSend(r: Request, q: Request) {
    q.thread == r.thread && q.sender == r.sender && r.clientId.Some? && q.clientId == r.clientId
  }

  /** Of all sends of a run with the same match, sender and client id, at most one is answered "created". */
  lemma OneCreates(parties: map<nat, (nat, nat)>, es: seq<Event>, t: nat, r: Request, u: nat, q: Request)
    requires Began(parties, es, t, r) && Began(parties, es, u, q) && SameSend(r, q)
    requires var answers := Run(Start(parties), es).store.answers;
      t in answers && u in answers && answers[t].Created? && answers[u].Created?
    ensures t == u
  {
    var store := Run(Start(parties), es).store;
    CreatedIs(parties, es, t, r);
    CreatedIs(parties, es, u, q);
    ReachableKeys(parties, es);
    OneRowPerKey(store, store.answers[t].row, store.answers[u].row);
    assert SameCreation(store.answers[t], store.answers[u]);
  }

  /** At most one committed row per (match, sender, client id), one creation answered per (match, sender, client id)
    * sent, and one publish request per committed row, in every run. */
  lemma SendsAreIdempotent(parties: map<nat, (nat, nat)>, es: seq<Event>)
    ensures var store := Run(Start(parties), es).store;
      && (forall i, j :: i in store.rows && j in store.rows && SameRetry(store.rows[i], store.rows[j]) ==> i == j)
      && (forall t, r, u, q :: Began(parties, es, t, r) && Began(parties, es, u, q) && SameSend(r, q)
            && t in store.answers && u in store.answers && store.answers[t].Created? && store.answers[u].Created?
            ==> t == u)
      && multiset(store.published) == multiset(store.rows.Keys)
  {
    var store := Run(Start(parties), es).store;
    Reachable(parties, es);
    PublishedOnce(store);
    forall t, r, u, q | Began(parties, es, t, r) && Began(parties, es, u, q) && SameSend(r, q)
        && t in store.answers && u in store.answers && store.answers[t].Created? && store.answers[u].Created?
      ensures t == u
    {
      OneCreates(parties, es, t, r, u, q);
    }
  }

  lemma PublishedOnce(store: Store)
    requires PublishedOk(store)
    ensures multiset(store.published) == multiset(store.rows.Keys)
  {
    forall i: nat
      ensures multiset(store.published)[i] == multiset(store.rows.Keys)[i]
    {
      DistinctCount(store.published, i);
    }
  }

  lemma {:induction false} DistinctCount(p: seq<nat>, i: nat)
    requires forall j, k :: 0 <= j < k < |p| ==> p[j] != p[k]
    ensures multiset(p)[i] == if i in p then 1 else 0
  {
    if p != [] {
      assert p == p[..|p| - 1] + [p[|p| - 1]];
      DistinctCount(p[..|p| - 1], i);
    }
  }

  /** Committed ids of one thread become visible in increasing order. */
  lemma VisibleInIdOrder(parties: map<nat, (nat, nat)>, es: seq<Event>, j: nat, k: nat)
    requires var store := Run(Start(parties), es).store;
      && j < k < |store.published|
      && (forall n :: 0 <= n < |store.published| ==> store.published[n] in store.rows)
      && store.rows[store.published[j]].thread == store.rows[store.published[k]].thread
    ensures var store := Run(Start(parties), es).store; store.published[j] < store.published[k]
  {
    Reachable(parties, es);
  }

  /** A lookup under the key of a committed row, however much later, gets that row back, or a conflict for another
    * body; the table and the bus see nothing new. */
  lemma LookupReturnsRow(s: State, es: seq<Event>, id: nat, t: nat)
    requires Inv(s) && id in s.store.rows
    requires var s' := Run(s, es);
      t in s'.store.txns && s'.store.txns[t].phase == Eligible && SameKey(s.store.rows[id], s'.store.txns[t].request)
    ensures var s' := Run(s, es); var after := Send(s'.store, Replay(t));
      && after.rows == s'.store.rows && after.published == s'.store.published && t in after.answers
      && after.answers[t] == (if s.store.rows[id].body == s'.store.txns[t].request.body
                              then Replayed(s.store.rows[id]) else Conflict)
  {
    RunKeeps(s, es);
    RowsPermanent(s, es, id);
    RetryAnswer(Run(s, es).store, t, id);
  }

  /** In every run: once a send of `r` was answered "created", any eligible send with the same match, sender and client
    * id that reaches the lookup is answered with that row if it has the same body and with a conflict otherwise, and
    * changes neither table nor bus. */
  lemma RetryReturnsRow(parties: map<nat, (nat, nat)>, es: seq<Event>, t: nat, r: Request, u: nat)
    requires Began(parties, es, t, r)
    requires var store := Run(Start(parties), es).store;
      && t in store.answers && store.answers[t].Created? && u in store.txns && store.txns[u].phase == Eligible
      && SameSend(r, store.txns[u].request)
    ensures var store := Run(Start(parties), es).store; var after := Send(store, Replay(u));
      && after.rows == store.rows && after.published == store.published && u in after.answers
      && after.answers[u] == if store.txns[u].request.body == r.body then Replayed(store.answers[t].row) else Conflict
  {
    var s := Run(Start(parties), es);
    Reachable(parties, es);
    CreatedIs(parties, es, t, r);
    assert Run(s, []) == s;
    LookupReturnsRow(s, [], s.store.answers[t].row.id, u);
  }
}
