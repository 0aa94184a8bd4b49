/** Sending a message: `ChatMessagesView.post` as interleaved transactions.
  *
  * Each send is a database transaction of several steps.  Steps of different
  * transactions interleave freely; an event that is not enabled (for example a
  * `Begin` on a thread somebody has locked) leaves the store unchanged, which
  * is how waiting appears here. */
module ChatStore {
  import opened Wrappers
  import opened ChatPages

  /** A validated POST: the serializer has trimmed the body and parsed the client id. */
  datatype Request = Request(thread: nat, sender: nat, body: string, clientId: Option<nat>)

  datatype Phase = Locked | Eligible | Clear | Inserted(row: Row)

  datatype Txn = Txn(request: Request, phase: Phase)

  datatype Answer = Refused | Replayed(row: Row) | Conflict | Created(row: Row) | RolledBack

  /** `locks` maps a thread to the transaction holding its Match row; `nextId`
    * is the sequence shared by all threads, which no rollback rewinds;
    * `published` lists the ids sent to the bus, one per committed send. */
  datatype Store = Store(
    parties: map<nat, (nat, nat)>,
    rows: Table, nextId: nat, published: seq<nat>,
    locks: map<nat, nat>, txns: map<nat, Txn>, answers: map<nat, Answer>)

  datatype SendEvent =
    | Begin(t: nat, request: Request)
    | Gate(t: nat, eligible: bool)
    | Replay(t: nat)
    | Insert(t: nat)
    | Commit(t: nat)
    | Abort(t: nat)

  predicate IsParty(parties: map<nat, (nat, nat)>, m: nat, user: nat) {
    m in parties && (parties[m].0 == user || parties[m].1 == user)
  }

  predicate SameKey(row: Row, request: Request) {
    && row.thread == request.thread && row.sender == request.sender
    && request.clientId.Some? && row.clientId == request.clientId
  }

  predicate SameRetry(a: Row, b: Row) {
    a.thread == b.thread && a.sender == b.sender && a.clientId.Some? && a.clientId == b.clientId
  }

  /** End transaction `t`: drop it, release its lock and remember its answer. */
  function Finish(s: Store, t: nat, answer: Answer): Store
    requires t in s.txns
  {
    s.(locks := s.locks - {s.txns[t].request.thread}, txns := s.txns - {t}, answers := s.answers[t := answer])
  }

  /** The replay lookup: the committed row with this key, lowest id first. */
  function Previous(rows: Table, request: Request, top: nat): (found: Option<nat>)
    ensures found.Some? ==> found.value in rows && SameKey(rows[found.value], request)
    ensures found.None? ==> forall i :: i in rows && i < top ==> !SameKey(rows[i], request)
  {
    if top == 0 then None
    else
      var earlier := Previous(rows, request, top - 1);
      if earlier.Some? then earlier
      else if top - 1 in rows && SameKey(rows[top - 1], request) then Some(top - 1)
      else None
  }

  function NewRow(id: nat, r: Request): Row {
    Row(id, r.thread, r.sender, r.body, r.clientId)
  }

  /** The row stores what the request asked to send. */
  predicate Carries(row: Row, r: Request) {
    && row.thread == r.thread && row.sender == r.sender
    && row.body == r.body && row.clientId == r.clientId
  }

  function Send(s: Store, e: SendEvent): Store {
    match e
    case Begin(t, request) =>
      if t in s.txns || t in s.answers || request.thread in s.locks || request.thread !in s.parties then s
      else s.(locks := s.locks[request.thread := t], txns := s.txns[t := Txn(request, Locked)])
    case Gate(t, eligible) =>
      if t !in s.txns || s.txns[t].phase != Locked then s
      else if eligible && IsParty(s.parties, s.txns[t].request.thread, s.txns[t].request.sender)
      then s.(txns := s.txns[t := s.txns[t].(phase := Eligible)])
      else Finish(s, t, Refused)
    case Replay(t) =>
      if t !in s.txns || s.txns[t].phase != Eligible then s
      else
        var request := s.txns[t].request;
        var previous := Previous(s.rows, request, s.nextId);
        if previous.None? then s.(txns := s.txns[t := s.txns[t].(phase := Clear)])
        else
          var row := s.rows[previous.value];
          Finish(s, t, if row.body != request.body then Conflict else Replayed(row))
    case Insert(t) =>
      if t !in s.txns || s.txns[t].phase != Clear then s
      else
        var row := NewRow(s.nextId, s.txns[t].request);
        s.(nextId := s.nextId + 1, txns := s.txns[t := s.txns[t].(phase := Inserted(row))])
    case Commit(t) =>
      if t !in s.txns || !s.txns[t].phase.Inserted? then s
      else
        var row := s.txns[t].phase.row;
        Finish(s, t, Created(row)).(rows := s.rows[row.id := row], published := s.published + [row.id])
    case Abort(t) =>
      if t !in s.txns then s else Finish(s, t, RolledBack)
  }

  predicate Commits(s: Store, e: SendEvent) {
    e.Commit? && e.t in s.txns && s.txns[e.t].phase.Inserted?
  }

  /** Only a commit touches the table and the bus. */
  lemma SendEffect(s: Store, e: SendEvent)
    ensures var s' := Send(s, e);
      && s'.parties == s.parties && s'.nextId >= s.nextId
      && (!Commits(s, e) ==> s'.rows == s.rows && s'.published == s.published)
      && (Commits(s, e) ==>
          var row := s.txns[e.t].phase.row; s'.rows == s.rows[row.id := row] && s'.published == s.published + [row.id])
  {
  }

  // ----------------------------------------------------------------------
  // What every step keeps
  // ----------------------------------------------------------------------

  ghost predicate LocksAgree(s: Store) {
    && (forall m :: m in s.locks ==> s.locks[m] in s.txns && s.txns[s.locks[m]].request.thread == m)
    && (forall t :: t in s.txns ==> s.txns[t].request.thread in s.locks && s.locks[s.txns[t].request.thread] == t)
  }

  /** A row waiting to commit: its id is new, and above every committed id of its thread. */
  ghost predicate Ahead(s: Store, row: Row) {
    && 1 <= row.id < s.nextId && row.id !in s.rows
    && IsParty(s.parties, row.thread, row.sender)
    && forall i: nat :: In(s.rows, row.thread, i) ==> i < row.id
  }

  ghost predicate TxnOk(s: Store, t: nat)
    requires t in s.txns
  {
    var request, phase := s.txns[t].request, s.txns[t].phase;
    && (phase != Locked ==> IsParty(s.parties, request.thread, request.sender))
    && (phase == Clear || phase.Inserted? ==> forall i :: i in s.rows ==> !SameKey(s.rows[i], request))
    && (phase.Inserted? ==> Carries(phase.row, request) && Ahead(s, phase.row))
  }

  ghost predicate PendingDistinct(s: Store) {
    forall t, u :: t in s.txns && u in s.txns && t != u && s.txns[t].phase.Inserted? && s.txns[u].phase.Inserted?
      ==> s.txns[t].phase.row.id != s.txns[u].phase.row.id
  }

  ghost predicate RowsOk(s: Store) {
    && Below(s.rows, s.nextId) && s.nextId >= 1 && 0 !in s.rows
    && (forall i :: i in s.rows ==> IsParty(s.parties, s.rows[i].thread, s.rows[i].sender))
    && (forall i, j :: i in s.rows && j in s.rows && i != j ==> !SameRetry(s.rows[i], s.rows[j]))
  }

  /** The bus has been asked to publish each committed row once, and within a
    * thread in the order of the ids. */
  ghost predicate PublishedOk(s: Store) {
    && (forall k :: 0 <= k < |s.published| ==> s.published[k] in s.rows)
    && (forall i :: i in s.rows ==> i in s.published)
    && (forall j, k :: 0 <= j < k < |s.published| ==> s.published[j] != s.published[k])
    && (forall j, k :: 0 <= j < k < |s.published| && s.rows[s.published[j]].thread == s.rows[s.published[k]].thread
          ==> s.published[j] < s.published[k])
  }

  ghost predicate StoreInv(s: Store) {
    && LocksAgree(s) && RowsOk(s) && PendingDistinct(s) && PublishedOk(s)
    && (forall t :: t in s.txns ==> TxnOk(s, t))
  }

  /** A transaction the step did not touch stays as it was, provided rows were
    * added to other threads only. */
  lemma TxnCarries(s: Store, s': Store, u: nat)
    requires u in s.txns && u in s'.txns && s'.txns[u] == s.txns[u] && TxnOk(s, u)
    requires s'.parties == s.parties && s'.nextId >= s.nextId
    requires forall i :: i in s'.rows ==>
      (i in s.rows && s'.rows[i] == s.rows[i]) || s'.rows[i].thread != s.txns[u].request.thread
    requires s.txns[u].phase.Inserted? ==> s.txns[u].phase.row.id !in s'.rows
    ensures TxnOk(s', u)
  {
    var request, phase := s.txns[u].request, s.txns[u].phase;
    if phase.Inserted? {
      forall i: nat | In(s'.rows, request.thread, i)
        ensures i < phase.row.id
      {
        assert In(s.rows, request.thread, i);
      }
    }
  }

  lemma FinishKeeps(s: Store, t: nat, answer: Answer)
    requires StoreInv(s) && t in s.txns
    ensures StoreInv(Finish(s, t, answer))
  {
    var s' := Finish(s, t, answer);
    forall u | u in s'.txns
      ensures TxnOk(s', u)
    {
      TxnCarries(s, s', u);
    }
  }

  lemma BeginKeepsTxn(s: Store, t: nat, request: Request, u: nat)
    requires u in s.txns && TxnOk(s, u)
    ensures TxnOk(Send(s, Begin(t, request)), u)
  {
    TxnCarries(s, Send(s, Begin(t, request)), u);
  }

  lemma BeginKeeps(s: Store, t: nat, request: Request)
    requires StoreInv(s)
    ensures StoreInv(Send(s, Begin(t, request)))
  {
    var s' := Send(s, Begin(t, request));
    forall u | u in s'.txns
      ensures TxnOk(s', u)
    {
      if u in s.txns {
        BeginKeepsTxn(s, t, request, u);
      }
    }
  }

  lemma PhaseKeeps(s: Store, t: nat, phase: Phase)
    requires StoreInv(s) && t in s.txns && (phase == Eligible || phase == Clear)
    requires IsParty(s.parties, s.txns[t].request.thread, s.txns[t].request.sender)
    requires phase == Clear ==> forall i :: i in s.rows ==> !SameKey(s.rows[i], s.txns[t].request)
    ensures StoreInv(s.(txns := s.txns[t := s.txns[t].(phase := phase)]))
  {
    var s' := s.(txns := s.txns[t := s.txns[t].(phase := phase)]);
    forall u | u in s'.txns
      ensures TxnOk(s', u)
    {
      assert TxnOk(s, u);
      if u != t {
        TxnCarries(s, s', u);
      }
    }
  }

  lemma ReplayKeeps(s: Store, t: nat)
    requires StoreInv(s)
    ensures StoreInv(Send(s, Replay(t)))
  {
    if t in s.txns && s.txns[t].phase == Eligible {
      var request := s.txns[t].request;
      assert TxnOk(s, t);
      if Previous(s.rows, request, s.nextId).None? {
        PhaseKeeps(s, t, Clear);
      } else {
        FinishKeeps(s, t, Send(s, Replay(t)).answers[t]);
      }
    }
  }

  lemma InsertKeepsTxn(s: Store, t: nat, u: nat)
    requires t in s.txns && s.txns[t].phase == Clear && RowsOk(s) && u in s.txns && TxnOk(s, u)
    ensures TxnOk(Send(s, Insert(t)), u)
  {
    if u == t {
      AllocatedAhead(s, s.txns[t].request);
    } else {
      TxnCarries(s, Send(s, Insert(t)), u);
    }
  }

  lemma InsertKeepsPending(s: Store, t: nat)
    requires t in s.txns && s.txns[t].phase == Clear && PendingDistinct(s) && forall u :: u in s.txns ==> TxnOk(s, u)
    ensures PendingDistinct(Send(s, Insert(t)))
  {
    forall u | u in s.txns && s.txns[u].phase.Inserted?
      ensures s.txns[u].phase.row.id < s.nextId
    {
      assert TxnOk(s, u);
    }
  }

  lemma InsertKeeps(s: Store, t: nat)
    requires StoreInv(s)
    ensures StoreInv(Send(s, Insert(t)))
  {
    var s' := Send(s, Insert(t));
    if s' != s {
      InsertKeepsPending(s, t);
      forall u | u in s'.txns
        ensures TxnOk(s', u)
      {
        InsertKeepsTxn(s, t, u);
      }
    }
  }

  lemma AllocatedAhead(s: Store, request: Request)
    requires RowsOk(s) && IsParty(s.parties, request.thread, request.sender)
    ensures Ahead(s.(nextId := s.nextId + 1), NewRow(s.nextId, request))
  {
  }

  /** The row committed is in the thread of `t`, which no other transaction holds. */
  lemma CommitKeepsTxn(s: Store, t: nat, u: nat)
    requires t in s.txns && s.txns[t].phase.Inserted? && TxnOk(s, t) && LocksAgree(s) && PendingDistinct(s)
    requires u in s.txns && u != t && TxnOk(s, u)
    ensures TxnOk(Send(s, Commit(t)), u)
  {
    TxnCarries(s, Send(s, Commit(t)), u);
  }

  lemma CommitKeeps(s: Store, t: nat)
    requires StoreInv(s)
    ensures StoreInv(Send(s, Commit(t)))
  {
    var s' := Send(s, Commit(t));
    if s' != s {
      forall u | u in s'.txns
        ensures TxnOk(s', u)
      {
        CommitKeepsTxn(s, t, u);
      }
      CommitKeepsRows(s, t);
      assert TxnOk(s, t);
      SendEffect(s, Commit(t));
      PublishedOneMore(s, s', s.txns[t].phase.row);
    }
  }

  lemma CommitKeepsRows(s: Store, t: nat)
    requires StoreInv(s) && t in s.txns && s.txns[t].phase.Inserted?
    ensures RowsOk(Send(s, Commit(t)))
  {
    var s' := Send(s, Commit(t));
    var row := s.txns[t].phase.row;
    assert TxnOk(s, t);
    forall i, j | i in s'.rows && j in s'.rows && i != j
      ensures !SameRetry(s'.rows[i], s'.rows[j])
    {
      if i == row.id {
        assert !SameKey(s.rows[j], s.txns[t].request);
      } else if j == row.id {
        assert !SameKey(s.rows[i], s.txns[t].request);
      }
    }
  }

  lemma PublishedOneMore(s: Store, s': Store, row: Row)
    requires PublishedOk(s) && Ahead(s, row)
    requires s'.rows == s.rows[row.id := row] && s'.published == s.published + [row.id]
    ensures PublishedOk(s')
  {
    var n := |s.published|;
    assert forall k :: 0 <= k < n ==>
      s'.published[k] == s.published[k] && s'.rows[s'.published[k]] == s.rows[s.published[k]];
    forall i | i in s'.rows
      ensures i in s'.published
    {
      if i == row.id {
        assert s'.published[n] == i;
      } else {
        assert i in s.published;
      }
    }
    forall j, k | 0 <= j < k < |s'.published| && s'.rows[s'.published[j]].thread == s'.rows[s'.published[k]].thread
      ensures s'.published[j] < s'.published[k]
    {
      if k == n {
        assert In(s.rows, row.thread, s.published[j]);
      }
    }
  }

  /** Every step of every transaction keeps the store invariant. */
  lemma SendKeeps(s: Store, e: SendEvent)
    requires StoreInv(s)
    ensures StoreInv(Send(s, e))
  {
    match e
    case Begin(t, request) => BeginKeeps(s, t, request);
    case Gate(t, eligible) =>
      if t in s.txns && s.txns[t].phase == Locked {
        if eligible && IsParty(s.parties, s.txns[t].request.thread, s.txns[t].request.sender) {
          PhaseKeeps(s, t, Eligible);
        } else {
          FinishKeeps(s, t, Refused);
        }
      }
    case Replay(t) => ReplayKeeps(s, t);
    case Insert(t) => InsertKeeps(s, t);
    case Commit(t) => CommitKeeps(s, t);
    case Abort(t) =>
      if t in s.txns {
        FinishKeeps(s, t, RolledBack);
      }
  }

  /** A step either leaves the table alone or commits one row, whose id is above
    * every id its thread has shown so far. */
  lemma SendShows(s: Store, e: SendEvent)
    requires StoreInv(s)
    ensures var s' := Send(s, e);
      && s'.parties == s.parties && s'.nextId >= s.nextId
      && (s'.rows != s.rows ==>
          exists row :: Ahead(s, row) && s'.rows == s.rows[row.id := row] && s'.published == s.published + [row.id])
  {
    SendEffect(s, e);
    if Commits(s, e) {
      assert TxnOk(s, e.t);
      assert Ahead(s, s.txns[e.t].phase.row);
    }
  }

  /** A retry while the thread is eligible: the lookup answers with the row
    * committed under the same key, or with a conflict when the body differs,
    * and never changes the table. */
  lemma RetryAnswer(s: Store, t: nat, id: nat)
    requires StoreInv(s) && t in s.txns && s.txns[t].phase == Eligible
    requires id in s.rows && SameKey(s.rows[id], s.txns[t].request)
    ensures var s' := Send(s, Replay(t));
      && s'.rows == s.rows && s'.published == s.published && t !in s'.txns
      && t in s'.answers
      && s'.answers[t] == (if s.rows[id].body == s.txns[t].request.body then Replayed(s.rows[id]) else Conflict)
  {
    var previous := Previous(s.rows, s.txns[t].request, s.nextId);
    assert previous.Some?;
    if previous.value != id {
      assert SameRetry(s.rows[previous.value], s.rows[id]);
    }
  }

  // ----------------------------------------------------------------------
  // What becomes of a request
  // ----------------------------------------------------------------------

  /** Thread, sender and client id of the request. */
  predicate KeyedAs(row: Row, r: Request) {
    row.thread == r.thread && row.sender == r.sender && row.clientId == r.clientId
  }

  predicate MayBegin(s: Store, t: nat, r: Request) {
    t !in s.txns && t !in s.answers && r.thread !in s.locks && r.thread in s.parties
  }

  /** What an answer says of the request it answers: a new row with what was sent, an earlier row
    * with the same key and the same body, an earlier row with the same key and another body, or nothing. */
  ghost predicate Tells(rows: Table, answer: Answer, r: Request) {
    match answer
    case Created(row) => row.id in rows && rows[row.id] == row && Carries(row, r)
    case Replayed(row) => row.id in rows && rows[row.id] == row && Carries(row, r) && r.clientId.Some?
    case Conflict => r.clientId.Some? && exists i :: i in rows && KeyedAs(rows[i], r) && rows[i].body != r.body
    case Refused => true
    case RolledBack => true
  }

  /** Transaction `t` is at work on `r`, or has answered it. */
  ghost predicate Serves(s: Store, t: nat, r: Request) {
    if t in s.txns then s.txns[t].request == r && t !in s.answers
    else t in s.answers && Tells(s.rows, s.answers[t], r)
  }

  lemma BeginServes(s: Store, t: nat, r: Request)
    requires MayBegin(s, t, r)
    ensures Serves(Send(s, Begin(t, r)), t, r)
  {
  }

  lemma TellsStill(rows: Table, rows': Table, answer: Answer, r: Request)
    requires Tells(rows, answer, r) && forall i :: i in rows ==> i in rows' && rows'[i] == rows[i]
    ensures Tells(rows', answer, r)
  {
    if answer.Conflict? {
      var i :| i in rows && KeyedAs(rows[i], r) && rows[i].body != r.body;
      assert i in rows' && KeyedAs(rows'[i], r) && rows'[i].body != r.body;
    }
  }

  /** A step leaves transactions other than its own alone, and those that have ended. */
  lemma LeavesOthers(s: Store, e: SendEvent, t: nat)
    requires e.t != t || t !in s.txns || e.Begin?
    requires t in s.txns || t in s.answers
    ensures var s' := Send(s, e);
      && (t in s'.txns <==> t in s.txns) && (t in s.txns ==> s'.txns[t] == s.txns[t])
      && (t in s'.answers <==> t in s.answers) && (t in s.answers ==> s'.answers[t] == s.answers[t])
  {
  }

  /** The only answer a step gives is that of its own transaction, and it is "created" for a commit alone. */
  lemma AnswersGiven(s: Store, e: SendEvent, t: nat)
    requires t in Send(s, e).answers
    ensures var answer := Send(s, e).answers[t];
      || (t in s.answers && answer == s.answers[t])
      || (t == e.t && (answer.Created? ==> Commits(s, e) && answer.row == s.txns[t].phase.row))
  {
  }

  lemma RowsStay(s: Store, e: SendEvent)
    requires StoreInv(s)
    ensures forall i :: i in s.rows ==> i in Send(s, e).rows && Send(s, e).rows[i] == s.rows[i]
  {
    SendShows(s, e);
  }

  lemma ServesOwn(s: Store, e: SendEvent, t: nat, r: Request)
    requires StoreInv(s) && t in s.txns && Serves(s, t, r) && e.t == t && !e.Begin?
    ensures Serves(Send(s, e), t, r)
  {
    assert TxnOk(s, t);
    if e.Replay? && s.txns[t].phase == Eligible {
      var previous := Previous(s.rows, r, s.nextId);
      if previous.Some? {
        var row := s.rows[previous.value];
        assert KeyedAs(row, r) && row.id == previous.value;
      }
    }
  }

  /** Once a transaction serves a request, it serves it after every step of whichever transaction. */
  lemma ServesStill(s: Store, e: SendEvent, t: nat, r: Request)
    requires StoreInv(s) && Serves(s, t, r)
    ensures Serves(Send(s, e), t, r)
  {
    if e.t != t || t !in s.txns || e.Begin? {
      LeavesOthers(s, e, t);
      if t !in s.txns {
        RowsStay(s, e);
        TellsStill(s.rows, Send(s, e).rows, s.answers[t], r);
      }
    } else {
      ServesOwn(s, e, t, r);
    }
  }
}
