/** The imperative endpoints: one uninterrupted `post`, and `_mark_fetched_read`.
  * Each is proved to have the effect of the protocol's events. */
module ChatServer {
  import opened Wrappers
  import opened ChatPages
  import opened ChatStore
  import opened ChatReaders

  function SendAll(s: Store, es: seq<SendEvent>): Store
    decreases |es|
  {
    if es == [] then s else SendAll(Send(s, es[0]), es[1..])
  }

  lemma SendFive(s: Store, a: SendEvent, b: SendEvent, c: SendEvent, d: SendEvent, e: SendEvent)
    ensures SendAll(s, [a, b, c, d, e]) == Send(Send(Send(Send(Send(s, a), b), c), d), e)
  {
    var es := [a, b, c, d, e];
    assert es[1..] == [b, c, d, e] && es[1..][1..] == [c, d, e];
    assert [c, d, e][1..] == [d, e] && [d, e][1..] == [e] && [e][1..] == [];
    assert SendAll(Send(Send(s, a), b), [c, d, e]) == SendAll(Send(Send(Send(s, a), b), c), [d, e]);
    assert SendAll(Send(Send(Send(s, a), b), c), [d, e]) == SendAll(Send(Send(Send(Send(s, a), b), c), d), [e]);
  }

  /** The five events of one uninterrupted send. */
  function Five(t: nat, request: Request, eligible: bool): seq<SendEvent> {
    [Begin(t, request), Gate(t, eligible), Replay(t), Insert(t), Commit(t)]
  }

  /** What the five events of one uninterrupted send come to. */
  function Posted(s: Store, t: nat, request: Request, eligible: bool): Store {
    var previous := Previous(s.rows, request, s.nextId);
    if !eligible || !IsParty(s.parties, request.thread, request.sender) then s.(answers := s.answers[t := Refused])
    else if previous.Some? then
      var row := s.rows[previous.value];
      s.(answers := s.answers[t := if row.body != request.body then Conflict else Replayed(row)])
    else
      var row := NewRow(s.nextId, request);
      s.(rows := s.rows[row.id := row], nextId := s.nextId + 1, published := s.published + [row.id],
         answers := s.answers[t := Created(row)])
  }

  lemma PostEffect(s: Store, t: nat, request: Request, eligible: bool)
    requires t !in s.txns && t !in s.answers && request.thread !in s.locks && request.thread in s.parties
    ensures SendAll(s, Five(t, request, eligible)) == Posted(s, t, request, eligible)
  {
    SendFive(s, Begin(t, request), Gate(t, eligible), Replay(t), Insert(t), Commit(t));
    var s1 := s.(locks := s.locks[request.thread := t], txns := s.txns[t := Txn(request, Locked)]);
    assert Send(s, Begin(t, request)) == s1;
    if !eligible || !IsParty(s.parties, request.thread, request.sender) {
      FinishSame(s, t, Txn(request, Locked), Refused);
      assert Send(s1, Gate(t, eligible)) == s.(answers := s.answers[t := Refused]);
    } else {
      var s2 := s1.(txns := s.txns[t := Txn(request, Eligible)]);
      assert Send(s1, Gate(t, eligible)) == s2;
      LookupEffect(s, t, request);
    }
  }

  /** What a send does to the table, and its answer. */
  ghost predicate Outcome(rows: Table, nextId: nat, published: seq<nat>, allowed: bool, request: Request,
                          rows': Table, nextId': nat, published': seq<nat>, answer: Answer)
  {
    var previous := Previous(rows, request, nextId);
    if !allowed then rows' == rows && nextId' == nextId && published' == published && answer == Refused
    else if previous.Some? then
      && rows' == rows && nextId' == nextId && published' == published
      && answer == if rows[previous.value].body != request.body then Conflict else Replayed(rows[previous.value])
    else
      && answer.Created? && answer.row.id == nextId && Carries(answer.row, request)
      && rows' == rows[nextId := answer.row] && nextId' == nextId + 1 && published' == published + [nextId]
  }

  /** A row with the request's thread, sender and client id, which is given, is there already. */
  ghost predicate Sent(rows: Table, top: nat, r: Request) {
    r.clientId.Some? && exists i: nat :: i < top && i in rows && KeyedAs(rows[i], r)
  }

  lemma SentIff(rows: Table, top: nat, r: Request)
    ensures Previous(rows, r, top).Some? ==> Sent(rows, top, r) && KeyedAs(rows[Previous(rows, r, top).value], r)
    ensures Previous(rows, r, top).None? ==> !Sent(rows, top, r)
  {
    if Previous(rows, r, top).Some? {
      PreviousBelow(rows, r, top);
    }
    if Previous(rows, r, top).None? && Sent(rows, top, r) {
      var i: nat :| i < top && i in rows && KeyedAs(rows[i], r);
      assert SameKey(rows[i], r);
    }
  }

  lemma {:induction false} PreviousBelow(rows: Table, r: Request, top: nat)
    requires Previous(rows, r, top).Some?
    ensures Previous(rows, r, top).value < top
  {
    if top > 0 && Previous(rows, r, top - 1).Some? {
      PreviousBelow(rows, r, top - 1);
    }
  }

  lemma PostedIs(s: Store, t: nat, request: Request, eligible: bool)
    ensures var s' := Posted(s, t, request, eligible);
      && t in s'.answers
      && Outcome(s.rows, s.nextId, s.published, IsParty(s.parties, request.thread, request.sender) && eligible, request,
                 s'.rows, s'.nextId, s'.published, s'.answers[t])
      && s' == Store(s.parties, s'.rows, s'.nextId, s'.published, s.locks, s.txns, s.answers[t := s'.answers[t]])
  {
  }

  /** Ending the only open transaction puts the lock table back. */
  lemma FinishSame(s: Store, t: nat, txn: Txn, answer: Answer)
    requires t !in s.txns && txn.request.thread !in s.locks
    ensures Finish(s.(locks := s.locks[txn.request.thread := t], txns := s.txns[t := txn]), t, answer)
         == s.(answers := s.answers[t := answer])
  {
  }

  lemma LookupEffect(s: Store, t: nat, request: Request)
    requires t !in s.txns && t !in s.answers && request.thread !in s.locks
    requires IsParty(s.parties, request.thread, request.sender)
    ensures var s2 := s.(locks := s.locks[request.thread := t], txns := s.txns[t := Txn(request, Eligible)]);
      Send(Send(Send(s2, Replay(t)), Insert(t)), Commit(t)) == Posted(s, t, request, true)
  {
    if Previous(s.rows, request, s.nextId).Some? {
      ReplayEffect(s, t, request);
    } else {
      InsertEffect(s, t, request);
    }
  }

  lemma ReplayEffect(s: Store, t: nat, request: Request)
    requires t !in s.txns && t !in s.answers && request.thread !in s.locks
    requires IsParty(s.parties, request.thread, request.sender)
    requires Previous(s.rows, request, s.nextId).Some?
    ensures var s2 := s.(locks := s.locks[request.thread := t], txns := s.txns[t := Txn(request, Eligible)]);
      Send(Send(Send(s2, Replay(t)), Insert(t)), Commit(t)) == Posted(s, t, request, true)
  {
    var s2 := s.(locks := s.locks[request.thread := t], txns := s.txns[t := Txn(request, Eligible)]);
    var row := s.rows[Previous(s.rows, request, s.nextId).value];
    var answer := if row.body != request.body then Conflict else Replayed(row);
    FinishSame(s, t, Txn(request, Eligible), answer);
    assert Send(s2, Replay(t)) == s.(answers := s.answers[t := answer]);
  }

  lemma InsertEffect(s: Store, t: nat, request: Request)
    requires t !in s.txns && t !in s.answers && request.thread !in s.locks
    requires IsParty(s.parties, request.thread, request.sender)
    requires Previous(s.rows, request, s.nextId).None?
    ensures var s2 := s.(locks := s.locks[request.thread := t], txns := s.txns[t := Txn(request, Eligible)]);
      Send(Send(Send(s2, Replay(t)), Insert(t)), Commit(t)) == Posted(s, t, request, true)
  {
    var s2 := s.(locks := s.locks[request.thread := t], txns := s.txns[t := Txn(request, Eligible)]);
    var row := NewRow(s.nextId, request);
    var s3 := s2.(txns := s.txns[t := Txn(request, Clear)]);
    assert Send(s2, Replay(t)) == s3;
    var s4 := s2.(nextId := s.nextId + 1, txns := s.txns[t := Txn(request, Inserted(row))]);
    assert Send(s3, Insert(t)) == s4;
    FinishSame(s.(nextId := s.nextId + 1), t, Txn(request, Inserted(row)), Created(row));
  }

  /** The lookup after a send that created a row finds this row. */
  lemma PreviousFresh(s: Store, r: Request, q: Request, row: Row)
    requires RowsOk(s) && Previous(s.rows, r, s.nextId).None?
    requires q.thread == r.thread && q.sender == r.sender && r.clientId.Some? && q.clientId == r.clientId
    requires row.id == s.nextId && Carries(row, r)
    ensures Previous(s.rows[row.id := row], q, s.nextId + 1) == Some(s.nextId)
  {
    var again := Previous(s.rows[row.id := row], q, s.nextId + 1);
    assert SameKey(row, q);
    assert again.Some? && again.value != s.nextId ==> SameKey(s.rows[again.value], r);
  }

  lemma PostedTwice(s: Store, t: nat, r: Request, u: nat, q: Request)
    requires RowsOk(s) && IsParty(s.parties, r.thread, r.sender)
    requires q.thread == r.thread && q.sender == r.sender && r.clientId.Some? && q.clientId == r.clientId
    requires Posted(s, t, r, true).answers[t].Created?
    ensures var first := Posted(s, t, r, true); var second := Posted(first, u, q, true);
      var row := first.answers[t].row;
      && Carries(row, r)
      && second.rows == first.rows && second.published == first.published
      && second.answers[u] == if q.body == r.body then Replayed(row) else Conflict
  {
    PreviousFresh(s, r, q, Posted(s, t, r, true).answers[t].row);
  }

  /** A send that is answered "created", and then the same match, sender and client id again: the second answer is the
    * row of the first, or a conflict for another body, and the table and the bus are as after the first. */
  lemma SentTwice(s: Store, t: nat, r: Request, u: nat, q: Request)
    requires StoreInv(s) && MayBegin(s, t, r) && IsParty(s.parties, r.thread, r.sender)
    requires u !in s.txns && u !in s.answers && u != t
    requires q.thread == r.thread && q.sender == r.sender && r.clientId.Some? && q.clientId == r.clientId
    ensures var first := SendAll(s, Five(t, r, true)); var second := SendAll(first, Five(u, q, true));
      && t in first.answers && u in second.answers
      && (first.answers[t].Created? ==>
          var row := first.answers[t].row;
          && row.body == r.body && row.clientId == r.clientId && second.rows == first.rows
          && second.published == first.published
          && second.answers[u] == if q.body == r.body then Replayed(row) else Conflict)
  {
    PostEffect(s, t, r, true);
    var first := Posted(s, t, r, true);
    PostedIs(s, t, r, true);
    PostEffect(first, u, q, true);
    PostedIs(first, u, q, true);
    if first.answers[t].Created? {
      PostedTwice(s, t, r, u, q);
    }
  }

  class ChatTable {
    const parties: map<nat, (nat, nat)>
    var rows: Table
    var nextId: nat
    var published: seq<nat>
    var locks: map<nat, nat>
    var txns: map<nat, Txn>
    var answers: map<nat, Answer>
    var read: map<nat, nat>

    ghost function View(): Store
      reads this
    {
      Store(parties, rows, nextId, published, locks, txns, answers)
    }

    constructor (parties: map<nat, (nat, nat)>)
      ensures View() == Start(parties).store && read == map[]
    {
      this.parties := parties;
      rows, nextId, published := map[], 1, [];
      locks, txns, answers, read := map[], map[], map[], map[];
    }

    /** The replay lookup, as a scan by ascending id. */
    method FindPrevious(request: Request) returns (found: Option<nat>)
      ensures found == Previous(rows, request, nextId)
      ensures found.Some? ==>
        && found.value in rows && request.clientId.Some? && rows[found.value].clientId == request.clientId
        && rows[found.value].thread == request.thread && rows[found.value].sender == request.sender
        && forall i :: i in rows && i < found.value ==> !SameKey(rows[i], request)
      ensures found.None? ==> forall i :: i in rows && i < nextId ==> !SameKey(rows[i], request)
    {
      var i := 0;
      while i < nextId
        invariant 0 <= i <= nextId
        invariant Previous(rows, request, i).None?
      {
        if i in rows && SameKey(rows[i], request) {
          PreviousStays(rows, request, i + 1, nextId);
          return Some(i);
        }
        i := i + 1;
      }
      return None;
    }

    /** `post` run without interruption once its Match row is free. */
    method Post(t: nat, request: Request, eligible: bool) returns (answer: Answer)
      requires t !in txns && t !in answers && request.thread !in locks && request.thread in parties
      modifies this
      ensures View() == SendAll(old(View()), Five(t, request, eligible))
      ensures t in answers && answers[t] == answer
      ensures answer == Refused <==>
        !(eligible && (parties[request.thread].0 == request.sender || parties[request.thread].1 == request.sender))
      ensures answer.Created? ==> !Sent(old(rows), old(nextId), request)
      ensures answer.Replayed? || answer.Conflict? ==> Sent(old(rows), old(nextId), request)
      ensures answer.Replayed? ==> Carries(answer.row, request)
      ensures answer != RolledBack
      ensures answer.Created? ==>
        && answer.row.id == old(nextId) && answer.row.thread == request.thread && answer.row.sender == request.sender
        && answer.row.body == request.body && answer.row.clientId == request.clientId
        && rows == old(rows)[old(nextId) := answer.row] && nextId == old(nextId) + 1
        && published == old(published) + [old(nextId)]
      ensures !answer.Created? ==> rows == old(rows) && nextId == old(nextId) && published == old(published)
      ensures locks == old(locks) && txns == old(txns) && read == old(read)
    {
      PostEffect(View(), t, request, eligible);
      PostedIs(View(), t, request, eligible);
      SentIff(rows, nextId, request);
      locks := locks[request.thread := t];
      answer := PostLocked(request, eligible);
      locks := locks - {request.thread};
      answers := answers[t := answer];
      assert locks == old(locks);
    }

    /** The body of `post` under the lock. */
    method PostLocked(request: Request, eligible: bool) returns (answer: Answer)
      modifies this`rows, this`nextId, this`published
      ensures Outcome(old(rows), old(nextId), old(published),
                      IsParty(parties, request.thread, request.sender) && eligible,
                      request, rows, nextId, published, answer)
    {
      if !eligible || !IsParty(parties, request.thread, request.sender) {
        return Refused;
      }
      var previous := FindPrevious(request);
      if previous.Some? {
        var row := rows[previous.value];
        return if row.body != request.body then Conflict else Replayed(row);
      }
      var row := NewRow(nextId, request);
      nextId := nextId + 1;
      rows := rows[row.id := row];
      published := published + [row.id];
      return Created(row);
    }

    /** `_mark_fetched_read`: stamp the returned counterparty rows not read yet. */
    method MarkFetchedRead(m: nat, viewer: nat, msgs: seq<Row>, now: nat)
      modifies this`read
      ensures read == MarkRead(old(read), rows, m, viewer, msgs, now)
    {
      var k := 0;
      while k < |msgs|
        invariant 0 <= k <= |msgs|
        invariant read == MarkRead(old(read), rows, m, viewer, msgs[..k], now)
      {
        var id := msgs[k].id;
        MarkOneMore(old(read), rows, m, viewer, msgs, k, now);
        if In(rows, m, id) && id !in read && rows[id].sender != viewer {
          read := read[id := now];
        }
        k := k + 1;
      }
      assert msgs[..k] == msgs;
    }
  }

  lemma {:induction false} PreviousStays(rows: Table, request: Request, i: nat, top: nat)
    requires i <= top && Previous(rows, request, i).Some?
    ensures Previous(rows, request, top) == Previous(rows, request, i)
    decreases top
  {
    if i < top {
      PreviousStays(rows, request, i, top - 1);
    }
  }

  lemma MarksOneMore(rows: Table, m: nat, viewer: nat, msgs: seq<Row>, k: nat, i: nat)
    requires k < |msgs|
    ensures Marks(rows, m, viewer, msgs[..k + 1], i) <==>
      Marks(rows, m, viewer, msgs[..k], i) || (i == msgs[k].id && In(rows, m, i) && rows[i].sender != viewer)
  {
    var a, b := msgs[..k], msgs[..k + 1];
    if Marks(rows, m, viewer, a, i) {
      var j :| 0 <= j < |a| && a[j].id == i;
      assert b[j].id == i;
    }
    if i == msgs[k].id {
      assert b[k].id == i;
    }
  }

  lemma MarkOneMore(read: map<nat, nat>, rows: Table, m: nat, viewer: nat, msgs: seq<Row>, k: nat, now: nat)
    requires k < |msgs|
    ensures var id := msgs[k].id; var sofar := MarkRead(read, rows, m, viewer, msgs[..k], now);
      MarkRead(read, rows, m, viewer, msgs[..k + 1], now)
        == if In(rows, m, id) && id !in sofar && rows[id].sender != viewer then sofar[id := now] else sofar
  {
    var id := msgs[k].id;
    forall i
      ensures Marks(rows, m, viewer, msgs[..k + 1], i) <==>
        Marks(rows, m, viewer, msgs[..k], i) || (i == id && In(rows, m, i) && rows[i].sender != viewer)
    {
      MarksOneMore(rows, m, viewer, msgs, k, i);
    }
  }
}
