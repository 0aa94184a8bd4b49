/** Transactions that lock each row they touch until they commit or roll back.
  *
  * Every locked service here works this way: `select_for_update` refetches a
  * row under its lock, the transaction changes its own copy, and the copies
  * become visible together at commit.  Each operation is remembered with the
  * row it found in the transaction's copy.  The theorems say that any
  * interleaving leaves the table as if the committed operations had been
  * performed one after the other, in commit order, and that each of them had
  * found exactly what those before it had left. */
module RowLocks {
  import opened Wrappers

  /** What an operation does to a row; `None` is a row that does not exist. */
  type Effect<!R, !O> = (Option<R>, O) -> Option<R>

  /** One operation on one row, with the row as the transaction found it. */
  datatype Entry<K, R, O> = Entry(key: K, op: O, found: Option<R>)

  /** A transaction's copies of the rows it has locked, and what it has done to them. */
  datatype Txn<K, R, O> = Txn(copies: map<K, Option<R>>, done: seq<Entry<K, R, O>>)

  /** `log` has the operations of committed transactions in commit order, `lost` those
    * of rolled back ones, `made` all operations in the order in which they were made. */
  datatype State<K, R, O> = State(
    table: map<K, Option<R>>,
    held: map<K, nat>,
    txns: map<nat, Txn<K, R, O>>,
    log: seq<Entry<K, R, O>>,
    lost: seq<Entry<K, R, O>>,
    made: seq<Entry<K, R, O>>)

  datatype Event<K, O> =
    | Acquire(t: nat, key: K)
    | Do(t: nat, key: K, op: O)
    | Commit(t: nat)
    | Abort(t: nat)

  function Get<K, R>(table: map<K, Option<R>>, k: K): Option<R> {
    if k in table then table[k] else None
  }

  function Opened<K, R, O>(txns: map<nat, Txn<K, R, O>>, t: nat): Txn<K, R, O> {
    if t in txns then txns[t] else Txn(map[], [])
  }

  function Released<K>(held: map<K, nat>, t: nat): map<K, nat> {
    map k | k in held && held[k] != t :: held[k]
  }

  /** An event that is not enabled, such as acquiring a row somebody holds, changes nothing. */
  function Step<K, R, O>(apply: Effect<R, O>, s: State<K, R, O>, e: Event<K, O>): State<K, R, O> {
    match e
    case Acquire(t, k) =>
      if k in s.held then s
      else
        var txn := Opened(s.txns, t);
        s.(held := s.held[k := t], txns := s.txns[t := txn.(copies := txn.copies[k := Get(s.table, k)])])
    case Do(t, k, op) =>
      if t !in s.txns || k !in s.txns[t].copies then s
      else
        var txn := s.txns[t];
        var entry := Entry(k, op, txn.copies[k]);
        s.(txns := s.txns[t := Txn(txn.copies[k := apply(txn.copies[k], op)], txn.done + [entry])],
           made := s.made + [entry])
    case Commit(t) =>
      if t !in s.txns then s
      else
        s.(table := s.table + s.txns[t].copies, held := Released(s.held, t), txns := s.txns - {t},
           log := s.log + s.txns[t].done)
    case Abort(t) =>
      if t !in s.txns then s
      else s.(held := Released(s.held, t), txns := s.txns - {t}, lost := s.lost + s.txns[t].done)
  }

  function Run<K, R, O>(apply: Effect<R, O>, s: State<K, R, O>, es: seq<Event<K, O>>): State<K, R, O>
    decreases |es|
  {
    if es == [] then s else Run(apply, Step(apply, s, es[0]), es[1..])
  }

  function Start<K, R, O>(table: map<K, Option<R>>): State<K, R, O> {
    State(table, map[], map[], [], [], [])
  }

  lemma {:induction false} RunSplits<K, R, O>(apply: Effect<R, O>, s: State<K, R, O>, a: seq<Event<K, O>>,
                                              b: seq<Event<K, O>>)
    ensures Run(apply, s, a + b) == Run(apply, Run(apply, s, a), b)
    decreases |a|
  {
    if a == [] {
      assert a + b == b;
    } else {
      assert (a + b)[1..] == a[1..] + b;
      RunSplits(apply, Step(apply, s, a[0]), a[1..], b);
    }
  }

  lemma RunOneMore<K, R, O>(apply: Effect<R, O>, s: State<K, R, O>, es: seq<Event<K, O>>, e: Event<K, O>)
    ensures Run(apply, s, es + [e]) == Step(apply, Run(apply, s, es), e)
  {
    RunSplits(apply, s, es, [e]);
    assert [e][1..] == [];
    assert Run(apply, Step(apply, Run(apply, s, es), e), []) == Step(apply, Run(apply, s, es), e);
  }

  // ----------------------------------------------------------------------
  // Serial histories
  // ----------------------------------------------------------------------

  /** One row after a serial history of operations. */
  function RowAfter<K(==), R, O>(apply: Effect<R, O>, row: Option<R>, ops: seq<Entry<K, R, O>>, k: K): Option<R>
    decreases |ops|
  {
    if ops == [] then row
    else
      var before := RowAfter(apply, row, ops[..|ops| - 1], k);
      var last := ops[|ops| - 1];
      if last.key == k then apply(before, last.op) else before
  }

  lemma {:induction false} RowAfterConcat<K, R, O>(apply: Effect<R, O>, row: Option<R>, a: seq<Entry<K, R, O>>,
                                                   b: seq<Entry<K, R, O>>, k: K)
    ensures RowAfter(apply, row, a + b, k) == RowAfter(apply, RowAfter(apply, row, a, k), b, k)
    decreases |b|
  {
    if b == [] {
      assert a + b == a;
    } else {
      var front := b[..|b| - 1];
      assert (a + b)[..|a + b| - 1] == a + front;
      RowAfterConcat(apply, row, a, front, k);
    }
  }

  lemma {:induction false} RowUntouched<K, R, O>(apply: Effect<R, O>, row: Option<R>, ops: seq<Entry<K, R, O>>, k: K)
    requires forall i :: 0 <= i < |ops| ==> ops[i].key != k
    ensures RowAfter(apply, row, ops, k) == row
    decreases |ops|
  {
    if ops != [] {
      RowUntouched(apply, row, ops[..|ops| - 1], k);
    }
  }

  lemma {:induction false} RowFixed<K, R(!new), O(!new)>(apply: Effect<R, O>, row: Option<R>,
                                                         ops: seq<Entry<K, R, O>>, k: K)
    requires forall op :: apply(row, op) == row
    ensures RowAfter(apply, row, ops, k) == row
    decreases |ops|
  {
    if ops != [] {
      RowFixed(apply, row, ops[..|ops| - 1], k);
    }
  }

  /** Operation `i` found what the operations before it make of the row. */
  ghost predicate FoundAt<K, R, O>(apply: Effect<R, O>, table: map<K, Option<R>>, ops: seq<Entry<K, R, O>>, i: nat)
    requires i < |ops|
  {
    ops[i].found == RowAfter(apply, Get(table, ops[i].key), ops[..i], ops[i].key)
  }

  ghost predicate FoundAll<K, R, O>(apply: Effect<R, O>, table: map<K, Option<R>>, ops: seq<Entry<K, R, O>>) {
    forall i {:trigger FoundAt(apply, table, ops, i)} :: 0 <= i < |ops| ==> FoundAt(apply, table, ops, i)
  }

  /** One operation more, found in the row that those before it leave. */
  lemma FoundOneMore<K, R, O>(apply: Effect<R, O>, table: map<K, Option<R>>, ops: seq<Entry<K, R, O>>,
                              e: Entry<K, R, O>)
    requires FoundAll(apply, table, ops) && e.found == RowAfter(apply, Get(table, e.key), ops, e.key)
    ensures FoundAll(apply, table, ops + [e])
  {
    forall i | 0 <= i < |ops + [e]|
      ensures FoundAt(apply, table, ops + [e], i)
    {
      if i < |ops| {
        assert FoundAt(apply, table, ops, i);
        assert (ops + [e])[..i] == ops[..i];
      } else {
        assert (ops + [e])[..i] == ops;
      }
    }
  }

  /** A table that agrees on the keys concerned. */
  lemma FoundElsewhere<K, R, O>(apply: Effect<R, O>, table: map<K, Option<R>>, table': map<K, Option<R>>,
                                ops: seq<Entry<K, R, O>>)
    requires FoundAll(apply, table, ops)
    requires forall i :: 0 <= i < |ops| ==> Get(table, ops[i].key) == Get(table', ops[i].key)
    ensures FoundAll(apply, table', ops)
  {
    forall i | 0 <= i < |ops|
      ensures FoundAt(apply, table', ops, i)
    {
      assert FoundAt(apply, table, ops, i);
    }
  }

  /** A block of operations after a history: what it found is what the history left. */
  lemma FoundJoined<K(!new), R, O>(apply: Effect<R, O>, first: map<K, Option<R>>, log: seq<Entry<K, R, O>>,
                             table: map<K, Option<R>>, done: seq<Entry<K, R, O>>)
    requires FoundAll(apply, first, log) && FoundAll(apply, table, done)
    requires forall k :: Get(table, k) == RowAfter(apply, Get(first, k), log, k)
    ensures FoundAll(apply, first, log + done)
  {
    var all := log + done;
    forall i | 0 <= i < |all|
      ensures FoundAt(apply, first, all, i)
    {
      if i < |log| {
        assert FoundAt(apply, first, log, i);
        assert all[..i] == log[..i];
      } else {
        var j := i - |log|;
        assert FoundAt(apply, table, done, j);
        assert all[..i] == log + done[..j];
        RowAfterConcat(apply, Get(first, all[i].key), log, done[..j], all[i].key);
      }
    }
  }

  // ----------------------------------------------------------------------
  // Serializability
  // ----------------------------------------------------------------------

  /** A transaction holds what it copied, its copies are what its own operations
    * make of the committed rows, and that is what these operations found. */
  ghost predicate TxnOk<K(!new), R, O>(apply: Effect<R, O>, s: State<K, R, O>, t: nat)
    requires t in s.txns
  {
    var txn := s.txns[t];
    && (forall k :: k in txn.copies <==> k in s.held && s.held[k] == t)
    && (forall k :: k in txn.copies ==> txn.copies[k] == RowAfter(apply, Get(s.table, k), txn.done, k))
    && (forall i :: 0 <= i < |txn.done| ==> txn.done[i].key in txn.copies)
    && FoundAll(apply, s.table, txn.done)
  }

  ghost predicate Inv<K(!new), R, O>(apply: Effect<R, O>, first: map<K, Option<R>>, s: State<K, R, O>) {
    && (forall k :: k in s.held ==> s.held[k] in s.txns)
    && (forall t :: t in s.txns ==> TxnOk(apply, s, t))
    && (forall k :: Get(s.table, k) == RowAfter(apply, Get(first, k), s.log, k))
    && FoundAll(apply, first, s.log)
  }

  /** A transaction that a step does not touch, over an unchanged table. */
  lemma TxnStays<K(!new), R, O>(apply: Effect<R, O>, s: State<K, R, O>, s': State<K, R, O>, u: nat)
    requires u in s.txns && TxnOk(apply, s, u) && u in s'.txns && s'.txns[u] == s.txns[u] && s'.table == s.table
    requires forall k :: k in s'.held && s'.held[k] == u <==> k in s.held && s.held[k] == u
    ensures TxnOk(apply, s', u)
  {
  }

  lemma AcquireKeepsOthers<K(!new), R, O>(apply: Effect<R, O>, s: State<K, R, O>, t: nat, k: K, u: nat)
    requires k !in s.held && u in s.txns && u != t && TxnOk(apply, s, u)
    ensures TxnOk(apply, Step(apply, s, Acquire(t, k)), u)
  {
    TxnStays(apply, s, Step(apply, s, Acquire(t, k)), u);
  }

  lemma AcquireKeepsMine<K(!new), R, O>(apply: Effect<R, O>, s: State<K, R, O>, t: nat, k: K)
    requires k !in s.held && forall l :: l in s.held ==> s.held[l] in s.txns
    requires t in s.txns ==> TxnOk(apply, s, t)
    ensures TxnOk(apply, Step(apply, s, Acquire(t, k)), t)
  {
    RowUntouched(apply, Get(s.table, k), Opened(s.txns, t).done, k);
  }

  lemma AcquireKeeps<K(!new), R, O>(apply: Effect<R, O>, first: map<K, Option<R>>, s: State<K, R, O>, t: nat, k: K)
    requires Inv(apply, first, s)
    ensures Inv(apply, first, Step(apply, s, Acquire(t, k)))
  {
    if k !in s.held {
      var s' := Step(apply, s, Acquire(t, k));
      AcquireKeepsMine(apply, s, t, k);
      forall u | u in s'.txns && u != t
        ensures TxnOk(apply, s', u)
      {
        AcquireKeepsOthers(apply, s, t, k, u);
      }
    }
  }

  lemma DoKeepsMine<K(!new), R, O>(apply: Effect<R, O>, s: State<K, R, O>, t: nat, k: K, op: O)
    requires t in s.txns && TxnOk(apply, s, t) && k in s.txns[t].copies
    ensures TxnOk(apply, Step(apply, s, Do(t, k, op)), t)
  {
    var s', txn := Step(apply, s, Do(t, k, op)), s.txns[t];
    assert s'.txns[t].done[..|txn.done|] == txn.done;
    FoundOneMore(apply, s.table, txn.done, Entry(k, op, txn.copies[k]));
  }

  lemma DoKeepsOthers<K(!new), R, O>(apply: Effect<R, O>, s: State<K, R, O>, t: nat, k: K, op: O, u: nat)
    requires u in s.txns && u != t && TxnOk(apply, s, u)
    ensures TxnOk(apply, Step(apply, s, Do(t, k, op)), u)
  {
    TxnStays(apply, s, Step(apply, s, Do(t, k, op)), u);
  }

  lemma DoKeeps<K(!new), R, O>(apply: Effect<R, O>, first: map<K, Option<R>>, s: State<K, R, O>, t: nat, k: K, op: O)
    requires Inv(apply, first, s)
    ensures Inv(apply, first, Step(apply, s, Do(t, k, op)))
  {
    if t in s.txns && k in s.txns[t].copies {
      var s' := Step(apply, s, Do(t, k, op));
      assert TxnOk(apply, s, t);
      DoKeepsMine(apply, s, t, k, op);
      forall u | u in s'.txns && u != t
        ensures TxnOk(apply, s', u)
      {
        DoKeepsOthers(apply, s, t, k, op, u);
      }
    }
  }

  lemma CommitKeepsOthers<K(!new), R, O>(apply: Effect<R, O>, s: State<K, R, O>, t: nat, u: nat)
    requires t in s.txns && u in s.txns && u != t && TxnOk(apply, s, t) && TxnOk(apply, s, u)
    ensures TxnOk(apply, Step(apply, s, Commit(t)), u)
  {
    var s', txn, other := Step(apply, s, Commit(t)), s.txns[t], s.txns[u];
    assert forall k :: k in other.copies ==> k !in txn.copies;
    assert forall k :: k in other.copies ==> Get(s'.table, k) == Get(s.table, k);
    FoundElsewhere(apply, s.table, s'.table, other.done);
  }

  lemma CommitKeeps<K(!new), R, O>(apply: Effect<R, O>, first: map<K, Option<R>>, s: State<K, R, O>, t: nat)
    requires Inv(apply, first, s)
    ensures Inv(apply, first, Step(apply, s, Commit(t)))
  {
    if t in s.txns {
      var s', txn := Step(apply, s, Commit(t)), s.txns[t];
      assert TxnOk(apply, s, t);
      forall u | u in s'.txns
        ensures TxnOk(apply, s', u)
      {
        CommitKeepsOthers(apply, s, t, u);
      }
      forall k
        ensures Get(s'.table, k) == RowAfter(apply, Get(first, k), s'.log, k)
      {
        RowAfterConcat(apply, Get(first, k), s.log, txn.done, k);
        if k !in txn.copies {
          RowUntouched(apply, Get(s.table, k), txn.done, k);
        }
      }
      FoundJoined(apply, first, s.log, s.table, txn.done);
    }
  }

  lemma AbortKeeps<K(!new), R, O>(apply: Effect<R, O>, first: map<K, Option<R>>, s: State<K, R, O>, t: nat)
    requires Inv(apply, first, s)
    ensures Inv(apply, first, Step(apply, s, Abort(t)))
  {
    var s' := Step(apply, s, Abort(t));
    forall u | u in s'.txns
      ensures TxnOk(apply, s', u)
    {
      TxnStays(apply, s, s', u);
    }
  }

  lemma StepKeeps<K(!new), R, O>(apply: Effect<R, O>, first: map<K, Option<R>>, s: State<K, R, O>, e: Event<K, O>)
    requires Inv(apply, first, s)
    ensures Inv(apply, first, Step(apply, s, e))
  {
    match e
    case Acquire(t, k) => AcquireKeeps(apply, first, s, t, k);
    case Do(t, k, op) => DoKeeps(apply, first, s, t, k, op);
    case Commit(t) => CommitKeeps(apply, first, s, t);
    case Abort(t) => AbortKeeps(apply, first, s, t);
  }

  lemma {:induction false} RunKeeps<K(!new), R, O>(apply: Effect<R, O>, first: map<K, Option<R>>, s: State<K, R, O>,
                                                   es: seq<Event<K, O>>)
    requires Inv(apply, first, s)
    ensures Inv(apply, first, Run(apply, s, es))
    decreases |es|
  {
    if es != [] {
      StepKeeps(apply, first, s, es[0]);
      RunKeeps(apply, first, Step(apply, s, es[0]), es[1..]);
    }
  }

  /** Whatever the interleaving, each committed row is what the committed
    * operations, taken one after the other in commit order, make of the row it
    * started as, and each of them found what those before it had made of its row. */
  lemma Serializable<K(!new), R, O>(apply: Effect<R, O>, first: map<K, Option<R>>, es: seq<Event<K, O>>)
    ensures var s := Run(apply, Start(first), es);
      && (forall k :: Get(s.table, k) == RowAfter(apply, Get(first, k), s.log, k))
      && FoundAll(apply, first, s.log)
  {
    RunKeeps(apply, first, Start(first), es);
  }

  /** So a property every operation keeps holds of every committed row, in every run. */
  lemma RowInvariant<K(!new), R(!new), O(!new)>(apply: Effect<R, O>, good: Option<R> -> bool, first: map<K, Option<R>>,
                                                es: seq<Event<K, O>>, k: K)
    requires good(Get(first, k)) && forall r, op :: good(r) ==> good(apply(r, op))
    ensures good(Get(Run(apply, Start(first), es).table, k))
  {
    Serializable(apply, first, es);
    SerialInvariant(apply, good, Get(first, k), Run(apply, Start(first), es).log, k);
  }

  lemma {:induction false} SerialInvariant<K, R(!new), O(!new)>(apply: Effect<R, O>, good: Option<R> -> bool,
                                                                row: Option<R>, ops: seq<Entry<K, R, O>>, k: K)
    requires good(row) && forall r, op :: good(r) ==> good(apply(r, op))
    ensures good(RowAfter(apply, row, ops, k))
    decreases |ops|
  {
    if ops != [] {
      SerialInvariant(apply, good, row, ops[..|ops| - 1], k);
    }
  }

  // ----------------------------------------------------------------------
  // What a run leaves alone
  // ----------------------------------------------------------------------

  lemma {:induction false} LogGrows<K, R, O>(apply: Effect<R, O>, s: State<K, R, O>, es: seq<Event<K, O>>)
    ensures s.log <= Run(apply, s, es).log
    decreases |es|
  {
    if es != [] {
      LogGrows(apply, Step(apply, s, es[0]), es[1..]);
    }
  }

  /** A committed row that no operation changes any more stays, whatever is still running. */
  lemma FinalRowStays<K(!new), R(!new), O(!new)>(apply: Effect<R, O>, first: map<K, Option<R>>, es: seq<Event<K, O>>,
                                                 more: seq<Event<K, O>>, k: K)
    requires var row := Get(Run(apply, Start(first), es).table, k); forall op :: apply(row, op) == row
    ensures Get(Run(apply, Start(first), es + more).table, k) == Get(Run(apply, Start(first), es).table, k)
  {
    var s := Run(apply, Start(first), es);
    RunSplits(apply, Start(first), es, more);
    var t := Run(apply, s, more);
    Serializable(apply, first, es);
    Serializable(apply, first, es + more);
    LogGrows(apply, s, more);
    var rest := t.log[|s.log|..];
    assert t.log == s.log + rest;
    RowAfterConcat(apply, Get(first, k), s.log, rest, k);
    RowFixed(apply, Get(s.table, k), rest, k);
  }

  // ----------------------------------------------------------------------
  // Everything made is committed, lost, or still open
  // ----------------------------------------------------------------------

  /** How many operations on row `k` satisfy `p`. */
  function Count<K(==), R, O>(ops: seq<Entry<K, R, O>>, k: K, p: Entry<K, R, O> -> bool): nat {
    if ops == [] then 0
    else
      var last := ops[|ops| - 1];
      Count(ops[..|ops| - 1], k, p) + if last.key == k && p(last) then 1 else 0
  }

  lemma {:induction false} CountConcat<K, R, O>(a: seq<Entry<K, R, O>>, b: seq<Entry<K, R, O>>, k: K,
                                                p: Entry<K, R, O> -> bool)
    ensures Count(a + b, k, p) == Count(a, k, p) + Count(b, k, p)
    decreases |b|
  {
    if b == [] {
      assert a + b == a;
    } else {
      assert (a + b)[..|a + b| - 1] == a + b[..|b| - 1];
      CountConcat(a, b[..|b| - 1], k, p);
    }
  }

  lemma {:induction false} CountNone<K, R, O>(ops: seq<Entry<K, R, O>>, k: K, p: Entry<K, R, O> -> bool)
    requires forall i :: 0 <= i < |ops| ==> ops[i].key != k
    ensures Count(ops, k, p) == 0
    decreases |ops|
  {
    if ops != [] {
      CountNone(ops[..|ops| - 1], k, p);
    }
  }

  /** The operations on row `k` of the transaction that holds it. */
  function Open<K, R, O>(s: State<K, R, O>, k: K, p: Entry<K, R, O> -> bool): nat {
    if k in s.held && s.held[k] in s.txns then Count(s.txns[s.held[k]].done, k, p) else 0
  }

  ghost predicate Accounted<K, R, O>(s: State<K, R, O>, k: K, p: Entry<K, R, O> -> bool) {
    Count(s.made, k, p) == Count(s.log, k, p) + Count(s.lost, k, p) + Open(s, k, p)
  }

  lemma NotHeldNotDone<K(!new), R, O>(apply: Effect<R, O>, first: map<K, Option<R>>, s: State<K, R, O>, t: nat, k: K,
                                      p: Entry<K, R, O> -> bool)
    requires Inv(apply, first, s) && t in s.txns
    ensures (k in s.held && s.held[k] == t) || Count(s.txns[t].done, k, p) == 0
    ensures k in s.held ==> s.held[k] in s.txns
  {
    assert TxnOk(apply, s, t);
    if !(k in s.held && s.held[k] == t) {
      CountNone(s.txns[t].done, k, p);
    }
  }

  lemma StepAccounts<K(!new), R, O>(apply: Effect<R, O>, first: map<K, Option<R>>, s: State<K, R, O>, e: Event<K, O>,
                                    k: K, p: Entry<K, R, O> -> bool)
    requires Inv(apply, first, s) && Accounted(s, k, p)
    ensures Accounted(Step(apply, s, e), k, p)
  {
    match e
    case Acquire(t, key) =>
      if t in s.txns {
        NotHeldNotDone(apply, first, s, t, k, p);
      }
      AcquireAccounts(apply, s, t, key, k, p);
    case Do(t, key, op) => DoAccounts(apply, first, s, t, key, op, k, p);
    case Commit(t) => CommitAccounts(apply, first, s, t, k, p);
    case Abort(t) => AbortAccounts(apply, first, s, t, k, p);
  }

  lemma CommitAccounts<K(!new), R, O>(apply: Effect<R, O>, first: map<K, Option<R>>, s: State<K, R, O>, t: nat, k: K,
                                      p: Entry<K, R, O> -> bool)
    requires Inv(apply, first, s) && Accounted(s, k, p)
    ensures Accounted(Step(apply, s, Commit(t)), k, p)
  {
    if t in s.txns {
      CountConcat(s.log, s.txns[t].done, k, p);
      NotHeldNotDone(apply, first, s, t, k, p);
      EndAccounts(s, Step(apply, s, Commit(t)), t, k, p);
    }
  }

  lemma AbortAccounts<K(!new), R, O>(apply: Effect<R, O>, first: map<K, Option<R>>, s: State<K, R, O>, t: nat, k: K,
                                     p: Entry<K, R, O> -> bool)
    requires Inv(apply, first, s) && Accounted(s, k, p)
    ensures Accounted(Step(apply, s, Abort(t)), k, p)
  {
    if t in s.txns {
      CountConcat(s.lost, s.txns[t].done, k, p);
      NotHeldNotDone(apply, first, s, t, k, p);
      EndAccounts(s, Step(apply, s, Abort(t)), t, k, p);
    }
  }

  lemma AcquireAccounts<K, R, O>(apply: Effect<R, O>, s: State<K, R, O>, t: nat, key: K, k: K,
                                 p: Entry<K, R, O> -> bool)
    requires Accounted(s, k, p) && (k in s.held ==> s.held[k] in s.txns)
    requires t in s.txns && k !in s.held ==> Count(s.txns[t].done, k, p) == 0
    ensures Accounted(Step(apply, s, Acquire(t, key)), k, p)
  {
  }

  lemma DoAccounts<K(!new), R, O>(apply: Effect<R, O>, first: map<K, Option<R>>, s: State<K, R, O>, t: nat, key: K,
                                  op: O, k: K, p: Entry<K, R, O> -> bool)
    requires Inv(apply, first, s) && Accounted(s, k, p)
    ensures Accounted(Step(apply, s, Do(t, key, op)), k, p)
  {
    if t in s.txns && key in s.txns[t].copies {
      assert TxnOk(apply, s, t);
      var entry := Entry(key, op, s.txns[t].copies[key]);
      CountConcat(s.made, [entry], k, p);
      CountConcat(s.txns[t].done, [entry], k, p);
      CountOne(entry, k, p);
    }
  }

  lemma CountOne<K, R, O>(entry: Entry<K, R, O>, k: K, p: Entry<K, R, O> -> bool)
    ensures Count([entry], k, p) == if entry.key == k && p(entry) then 1 else 0
  {
    assert [entry][..0] == [];
  }

  /** Once a transaction has ended, the row is open in another one or in none. */
  lemma EndAccounts<K(!new), R, O>(s: State<K, R, O>, s': State<K, R, O>, t: nat, k: K, p: Entry<K, R, O> -> bool)
    requires t in s.txns && s'.held == Released(s.held, t) && s'.txns == s.txns - {t}
    requires (k in s.held && s.held[k] == t) || Count(s.txns[t].done, k, p) == 0
    requires k in s.held ==> s.held[k] in s.txns
    ensures Open(s, k, p) == Open(s', k, p) + Count(s.txns[t].done, k, p)
  {
  }

  lemma {:induction false} RunAccounts<K(!new), R, O>(apply: Effect<R, O>, first: map<K, Option<R>>, s: State<K, R, O>,
                                                      es: seq<Event<K, O>>, k: K, p: Entry<K, R, O> -> bool)
    requires Inv(apply, first, s) && Accounted(s, k, p)
    ensures Accounted(Run(apply, s, es), k, p)
    decreases |es|
  {
    if es != [] {
      StepAccounts(apply, first, s, es[0], k, p);
      StepKeeps(apply, first, s, es[0]);
      RunAccounts(apply, first, Step(apply, s, es[0]), es[1..], k, p);
    }
  }

  /** In every run, the operations made on a row are those committed, those lost to a rollback, and those
    * of the transaction that holds the row. */
  lemma NothingUnaccounted<K(!new), R, O>(apply: Effect<R, O>, first: map<K, Option<R>>, es: seq<Event<K, O>>, k: K,
                                          p: Entry<K, R, O> -> bool)
    ensures Accounted(Run(apply, Start(first), es), k, p)
  {
    RunAccounts(apply, first, Start(first), es, k, p);
  }

  // ----------------------------------------------------------------------
  // One transaction among others
  // ----------------------------------------------------------------------

  /** The events of transaction `t`. */
  function Mine<K, O>(es: seq<Event<K, O>>, t: nat): seq<Event<K, O>> {
    if es == [] then []
    else
      var rest := Mine(es[1..], t);
      if es[0].t == t then [es[0]] + rest else rest
  }

  /** Cutting an interleaving just before and after the first event of `t`. */
  lemma {:induction false} FirstOfMine<K, O>(es: seq<Event<K, O>>, t: nat)
      returns (before: seq<Event<K, O>>, after: seq<Event<K, O>>)
    requires Mine(es, t) != []
    ensures es == before + [Mine(es, t)[0]] + after
    ensures Mine(before, t) == [] && Mine(after, t) == Mine(es, t)[1..]
    decreases |es|
  {
    if es[0].t == t {
      before, after := [], es[1..];
      assert es == [] + [es[0]] + es[1..];
    } else {
      var b, a := FirstOfMine(es[1..], t);
      before, after := [es[0]] + b, a;
      assert before[1..] == b;
    }
  }

  /** Two states alike as far as transaction `t` can see of itself. */
  ghost predicate SameFor<K, R, O>(s: State<K, R, O>, s': State<K, R, O>, t: nat) {
    && (t in s'.txns <==> t in s.txns)
    && (t in s.txns ==> s'.txns[t] == s.txns[t])
  }

  /** The events of others leave a transaction's copies and doings alone. */
  lemma {:induction false} OthersLeave<K, R, O>(apply: Effect<R, O>, s: State<K, R, O>, es: seq<Event<K, O>>, t: nat)
    requires Mine(es, t) == []
    ensures SameFor(s, Run(apply, s, es), t)
    decreases |es|
  {
    if es != [] {
      OthersLeave(apply, Step(apply, s, es[0]), es[1..], t);
    }
  }

  lemma {:induction false} MineJoined<K, O>(a: seq<Event<K, O>>, b: seq<Event<K, O>>, t: nat)
    ensures Mine(a + b, t) == Mine(a, t) + Mine(b, t)
    decreases |a|
  {
    if a == [] {
      assert a + b == b;
    } else {
      assert (a + b)[1..] == a[1..] + b;
      MineJoined(a[1..], b, t);
    }
  }

  /** The run up to and including the next event of `t`: others first, then that event. */
  lemma NextOfMine<K, R, O>(apply: Effect<R, O>, s: State<K, R, O>, es: seq<Event<K, O>>, t: nat)
      returns (middle: State<K, R, O>, rest: seq<Event<K, O>>)
    requires Mine(es, t) != []
    ensures SameFor(s, middle, t) && Mine(rest, t) == Mine(es, t)[1..]
    ensures Run(apply, s, es) == Run(apply, Step(apply, middle, Mine(es, t)[0]), rest)
  {
    var before, after := FirstOfMine(es, t);
    var e := Mine(es, t)[0];
    middle, rest := Run(apply, s, before), after;
    OthersLeave(apply, s, before, t);
    RunSplits(apply, s, before + [e], after);
    RunOneMore(apply, s, before, e);
  }
}
