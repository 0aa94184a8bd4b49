/** The two settings writers overlapping: `_save_settings_revision` and
  * `AdminSettingsView.post` as interleaved transactions.
  *
  * A transaction reads the latest version at one moment and inserts the next one
  * at another; what it read may be stale by then.  The unique version and the lock
  * on the active row are all that orders the writers.  The theorem says that this
  * is enough: every interleaving comes to the committed saves, each taken whole,
  * one after the other in commit order. */
module SettingsWriters {
  import opened Wrappers
  import opened Policy
  import S = Settings

  /** `active` is the active row as locked by a console save, `seen` the latest version as read. */
  datatype Txn = Txn(change: S.Change, active: Option<S.Revision>, seen: Option<nat>)

  /** `lock` is the transaction that holds the active row; `done` lists the committed saves in commit order. */
  datatype World = World(store: S.State, lock: Option<nat>, txns: map<nat, Txn>, done: seq<S.Change>)

  datatype Event =
    | Begin(t: nat, change: S.Change)
    | LockActive(t: nat)
    | ReadLatest(t: nat)
    | Commit(t: nat)
    | Abort(t: nat)

  predicate Taken(rows: seq<S.Revision>, version: nat) {
    exists i :: 0 <= i < |rows| && rows[i].version == version
  }

  predicate Activates(change: S.Change) { change.ConsoleSave? || change.activate }

  /** Inserting one version, under the unique constraint, and activating it where asked. */
  ghost function Inserted(rows: seq<S.Revision>, version: nat, bps: int, pricing: string, policy: Json, activate: bool,
                          now: int, checks: S.Checks): Option<seq<S.Revision>>
  {
    if !S.InRange(bps) || Taken(rows, version) then None
    else
      var created := rows + [S.Revision(version, S.Draft, bps, pricing, policy, None)];
      if !activate then Some(created)
      else
        var r := S.Activated(created, |rows|, checks.isPrivate, now);
        if r.Ok? then Some(r.value) else None
  }

  /** What a transaction writes, from what it has read; `None` where anything refuses it. */
  ghost function Written(s: S.State, txn: Txn, checks: S.Checks): Option<S.State>
    requires txn.seen.Some? && (txn.change.ConsoleSave? ==> txn.active.Some?)
  {
    var version := txn.seen.value + 1;
    match txn.change
    case ConsoleSave(us, commission, now) =>
      var active := txn.active.value;
      var bps := if commission.Some? then commission.value else active.commission;
      var policy := SetAll(active.policy, us);
      if !AllThere(active.policy, us) || policy.None? || !checks.accepts(bps, active.pricing, policy.value) then None
      else
        var rows := Inserted(s.rows, version, bps, active.pricing, policy.value, true, now, checks);
        if rows.None? || !AllThere(policy.value, us) then None
        else
          var rates := if commission.Some? then Some((active.commission, bps)) else None;
          var entry := S.Edited(version, Values(active.policy, us), Values(policy.value, us), rates);
          Some(S.State(rows.value, s.audit + [entry]))
    case ApiPost(bps, pricing, policy, activate, now) =>
      if !checks.accepts(bps, pricing, policy) then None
      else
        var rows := Inserted(s.rows, version, bps, pricing, policy, activate, now, checks);
        var status := if activate then S.Active else S.Draft;
        if rows.None? then None
        else Some(S.State(rows.value, s.audit + [S.Posted(version, status, bps, pricing, policy)]))
  }

  function Freed(w: World, t: nat): World {
    w.(lock := if w.lock == Some(t) then None else w.lock, txns := w.txns - {t})
  }

  /** The transaction has read what it needs, and no other one holds the row it would retire. */
  predicate MayCommit(w: World, t: nat) {
    && t in w.txns && w.txns[t].seen.Some?
    && (w.txns[t].change.ConsoleSave? ==> w.txns[t].active.Some?)
    && (Activates(w.txns[t].change) ==> w.lock.None? || w.lock == Some(t))
  }

  /** An event that is not enabled, such as locking the active row while another holds it, changes nothing. */
  ghost function Step(w: World, e: Event, checks: S.Checks): World {
    match e
    case Begin(t, change) => if t in w.txns then w else w.(txns := w.txns[t := Txn(change, None, None)])
    case LockActive(t) =>
      if t !in w.txns || !w.txns[t].change.ConsoleSave? || w.lock.Some? || S.ActiveAt(w.store.rows).None? then w
      else
        var active := w.store.rows[S.ActiveAt(w.store.rows).value];
        w.(lock := Some(t), txns := w.txns[t := w.txns[t].(active := Some(active))])
    case ReadLatest(t) =>
      if t !in w.txns then w
      else w.(txns := w.txns[t := w.txns[t].(seen := Some(S.Latest(w.store.rows)))])
    case Commit(t) =>
      if !MayCommit(w, t) then w
      else
        var written := Written(w.store, w.txns[t], checks);
        if written.None? then Freed(w, t)
        else Freed(w, t).(store := written.value, done := w.done + [w.txns[t].change])
    case Abort(t) => if t !in w.txns then w else Freed(w, t)
  }

  ghost function Run(w: World, es: seq<Event>, checks: S.Checks): World
    decreases |es|
  {
    if es == [] then w else Run(Step(w, es[0], checks), es[1..], checks)
  }

  function Start(s: S.State): World { World(s, None, map[], []) }

  // ----------------------------------------------------------------------
  // What every step keeps
  // ----------------------------------------------------------------------

  /** A version that was the latest when read is the latest still, or the one after it is taken. */
  predicate SeenOk(rows: seq<S.Revision>, seen: nat) {
    S.Latest(rows) == seen || Taken(rows, seen + 1)
  }

  /** A locked active row is the active row. */
  predicate HoldsActive(w: World, t: nat)
    requires t in w.txns
  {
    w.txns[t].active.Some? ==>
      && w.lock == Some(t) && S.ActiveAt(w.store.rows).Some?
      && w.store.rows[S.ActiveAt(w.store.rows).value] == w.txns[t].active.value
  }

  ghost predicate TxnOk(w: World, t: nat)
    requires t in w.txns
  {
    && HoldsActive(w, t)
    && (w.txns[t].seen.Some? ==> SeenOk(w.store.rows, w.txns[t].seen.value))
  }

  ghost predicate Inv(start: S.State, w: World, checks: S.Checks) {
    && S.Inv(w.store.rows)
    && (w.lock.Some? ==> w.lock.value in w.txns && w.txns[w.lock.value].active.Some?)
    && (forall t :: t in w.txns ==> TxnOk(w, t))
    && w.store == S.Run(start, w.done, checks)
    && |w.store.rows| == |start.rows| + |w.done|
  }

  /** What is written from an up-to-date reading is what the whole save writes; a stale reading writes nothing. */
  lemma WrittenIs(w: World, t: nat, checks: S.Checks)
    requires MayCommit(w, t) && TxnOk(w, t) && Written(w.store, w.txns[t], checks).Some?
    ensures w.txns[t].seen == Some(S.Latest(w.store.rows))
    ensures Written(w.store, w.txns[t], checks).value == S.Step(w.store, w.txns[t].change, checks)
    ensures w.txns[t].change.ConsoleSave? ==>
      var c := w.txns[t].change; S.ConsoleSaved(w.store, c.updates, c.commission, c.now, checks).Ok?
    ensures w.txns[t].change.ApiPost? ==>
      var c := w.txns[t].change; S.ApiPosted(w.store, c.bps, c.pricing, c.policy, c.activate, c.now, checks).Ok?
  {
  }

  lemma LatestIsLast(rows: seq<S.Revision>)
    requires S.Inv(rows) && rows != []
    ensures S.Latest(rows) == rows[|rows| - 1].version
  {
    S.LatestBounds(rows);
    if S.Latest(rows) > 0 {
      var i :| 0 <= i < |rows| && rows[i].version == S.Latest(rows);
    }
  }

  /** One version more, on top of all there are; the active row stays unless the save activates its own. */
  ghost predicate Adds(rows: seq<S.Revision>, later: seq<S.Revision>, activates: bool) {
    && S.Inv(later) && |later| == |rows| + 1 && later[|rows|].version == S.Latest(rows) + 1 == S.Latest(later)
    && (forall i :: 0 <= i < |rows| ==> later[i].version == rows[i].version)
    && (!activates ==> later[..|rows|] == rows && S.ActiveAt(later) == S.ActiveAt(rows))
  }

  lemma AddedAdds(rows: seq<S.Revision>, bps: int, pricing: string, policy: Json, activate: bool, now: int,
                  checks: S.Checks)
    requires S.Inv(rows) && S.Added(rows, bps, pricing, policy, activate, now, checks).Ok?
    ensures Adds(rows, S.Added(rows, bps, pricing, policy, activate, now, checks).value, activate)
  {
    S.AddedKeeps(rows, bps, pricing, policy, activate, now, checks);
    LatestIsLast(S.Added(rows, bps, pricing, policy, activate, now, checks).value);
  }

  lemma WrittenAdds(w: World, t: nat, checks: S.Checks)
    requires S.Inv(w.store.rows) && MayCommit(w, t) && TxnOk(w, t) && Written(w.store, w.txns[t], checks).Some?
    ensures Adds(w.store.rows, Written(w.store, w.txns[t], checks).value.rows, Activates(w.txns[t].change))
  {
    WrittenIs(w, t, checks);
    var rows := w.store.rows;
    match w.txns[t].change {
      case ConsoleSave(us, commission, now) =>
        var active := rows[S.ActiveAt(rows).value];
        var bps := if commission.Some? then commission.value else active.commission;
        AddedAdds(rows, bps, active.pricing, SetAll(active.policy, us).value, true, now, checks);
      case ApiPost(bps, pricing, policy, activate, now) =>
        AddedAdds(rows, bps, pricing, policy, activate, now, checks);
    }
  }

  /** A reading stays acceptable while one version at a time is added: it becomes stale, and the next one is taken. */
  lemma SeenStays(rows: seq<S.Revision>, later: seq<S.Revision>, seen: nat)
    requires SeenOk(rows, seen) && |later| == |rows| + 1 && later[|rows|].version == S.Latest(rows) + 1
    requires forall i :: 0 <= i < |rows| ==> later[i].version == rows[i].version
    ensures SeenOk(later, seen)
  {
    if Taken(rows, seen + 1) {
      var i :| 0 <= i < |rows| && rows[i].version == seen + 1;
      assert later[i].version == seen + 1;
    } else {
      assert later[|rows|].version == seen + 1;
    }
  }

  lemma RunOneMore(s: S.State, es: seq<S.Change>, e: S.Change, checks: S.Checks)
    ensures S.Run(s, es + [e], checks) == S.Step(S.Run(s, es, checks), e, checks)
  {
    S.RunSplits(s, es, [e], checks);
    assert [e][1..] == [];
    assert S.Run(S.Step(S.Run(s, es, checks), e, checks), [], checks) == S.Step(S.Run(s, es, checks), e, checks);
  }

  lemma CommitKeepsTxn(w: World, t: nat, checks: S.Checks, u: nat)
    requires S.Inv(w.store.rows) && MayCommit(w, t) && TxnOk(w, t) && Written(w.store, w.txns[t], checks).Some?
    requires u in w.txns && u != t && TxnOk(w, u)
    ensures TxnOk(Step(w, Commit(t), checks), u)
  {
    WrittenAdds(w, t, checks);
    var rows, later := w.store.rows, Written(w.store, w.txns[t], checks).value.rows;
    if w.txns[u].seen.Some? {
      SeenStays(rows, later, w.txns[u].seen.value);
    }
    if w.txns[u].active.Some? {
      assert later[..|rows|][S.ActiveAt(rows).value] == later[S.ActiveAt(later).value];
    }
  }

  lemma CommitKeeps(start: S.State, w: World, t: nat, checks: S.Checks)
    requires Inv(start, w, checks) && MayCommit(w, t) && Written(w.store, w.txns[t], checks).Some?
    ensures Inv(start, Step(w, Commit(t), checks), checks)
  {
    assert TxnOk(w, t);
    var w' := Step(w, Commit(t), checks);
    WrittenIs(w, t, checks);
    WrittenAdds(w, t, checks);
    RunOneMore(start, w.done, w.txns[t].change, checks);
    forall u | u in w'.txns
      ensures TxnOk(w', u)
    {
      CommitKeepsTxn(w, t, checks, u);
    }
  }

  lemma FreedKeeps(start: S.State, w: World, t: nat, checks: S.Checks)
    requires Inv(start, w, checks) && t in w.txns
    ensures Inv(start, Freed(w, t), checks)
  {
    forall u | u in w.txns && u != t
      ensures TxnOk(Freed(w, t), u)
    {
      assert TxnOk(w, u);
    }
  }

  lemma ReadKeeps(start: S.State, w: World, e: Event, checks: S.Checks)
    requires Inv(start, w, checks) && (e.Begin? || e.LockActive? || e.ReadLatest?)
    ensures Inv(start, Step(w, e, checks), checks)
  {
    var w' := Step(w, e, checks);
    forall u | u in w'.txns
      ensures TxnOk(w', u)
    {
      assert u in w.txns ==> TxnOk(w, u);
    }
  }

  lemma StepKeeps(start: S.State, w: World, e: Event, checks: S.Checks)
    requires Inv(start, w, checks)
    ensures Inv(start, Step(w, e, checks), checks)
  {
    match e
    case Commit(t) =>
      if MayCommit(w, t) {
        if Written(w.store, w.txns[t], checks).Some? {
          CommitKeeps(start, w, t, checks);
        } else {
          FreedKeeps(start, w, t, checks);
        }
      }
    case Abort(t) =>
      if t in w.txns {
        FreedKeeps(start, w, t, checks);
      }
    case _ => ReadKeeps(start, w, e, checks);
  }

  lemma {:induction false} RunKeeps(start: S.State, w: World, es: seq<Event>, checks: S.Checks)
    requires Inv(start, w, checks)
    ensures Inv(start, Run(w, es, checks), checks)
    decreases |es|
  {
    if es != [] {
      StepKeeps(start, w, es[0], checks);
      RunKeeps(start, Step(w, es[0], checks), es[1..], checks);
    }
  }

  // ----------------------------------------------------------------------
  // Every interleaving
  // ----------------------------------------------------------------------

  /** Whatever the interleaving, the revisions and the audit log are what the committed saves make of the start,
    * each taken whole and one after the other, and every one of them added its revision. */
  lemma WritersSerialize(start: S.State, es: seq<Event>, checks: S.Checks)
    requires S.Inv(start.rows)
    ensures var w := Run(Start(start), es, checks);
      && w.store == S.Run(start, w.done, checks)
      && |w.store.rows| == |start.rows| + |w.done|
      && S.Inv(w.store.rows)
  {
    RunKeeps(start, Start(start), es, checks);
  }

  /** In every run, a save whose reading of the latest version has become stale is refused by the unique version. */
  lemma StaleRefused(start: S.State, es: seq<Event>, checks: S.Checks, t: nat)
    requires S.Inv(start.rows)
    requires var w := Run(Start(start), es, checks);
      MayCommit(w, t) && w.txns[t].seen != Some(S.Latest(w.store.rows))
    ensures var w := Run(Start(start), es, checks);
      Step(w, Commit(t), checks) == Freed(w, t)
  {
    RunKeeps(start, Start(start), es, checks);
    assert TxnOk(Run(Start(start), es, checks), t);
  }
}
