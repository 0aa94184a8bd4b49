/** The settings revisions as the rows the two writers change. */
module SettingsTable {
  import opened Wrappers
  import opened Policy
  import opened PolicyHeap
  import S = Settings

  /** The table and the answer after a save with outcome `o`: the next version, or nothing changed. */
  ghost predicate Answers(o: Result<S.State, S.Refusal>, before: S.State, after: S.State, r: Result<nat, S.Refusal>) {
    match o
    case Ok(state) => after == state && r == Ok(S.Latest(before.rows) + 1)
    case Err(error) => after == before && r == Err(error)
  }

  class Table {
    var rows: seq<S.Revision>
    var audit: seq<S.Audit>

    ghost function State(): S.State
      reads this
    {
      S.State(rows, audit)
    }

    /** The row with status ACTIVE; `get_active_business_settings` fails where there is none. */
    method FindActive() returns (at: Option<nat>)
      requires S.Inv(rows)
      ensures at == S.ActiveAt(rows)
    {
      for i := 0 to |rows|
        invariant forall k :: 0 <= k < i ==> !rows[k].status.Active?
      {
        if rows[i].status.Active? {
          S.OnlyActive(rows, i);
          return Some(i);
        }
      }
      return None;
    }

    method LatestVersion() returns (v: nat)
      ensures v == S.Latest(rows)
    {
      v := 0;
      for i := 0 to |rows|
        invariant v == S.Latest(rows[..i])
      {
        assert rows[..i + 1][..i] == rows[..i];
        if rows[i].version > v {
          v := rows[i].version;
        }
      }
      assert rows[..|rows|] == rows;
    }

    method Activate(i: nat, isPrivate: Json -> bool, now: int) returns (r: Result<nat, S.Refusal>)
      requires i < |rows|
      modifies this`rows
      ensures var o := S.Activated(old(rows), i, isPrivate, now);
        && (o.Ok? ==> rows == o.value && r == Ok(rows[i].version))
        && (o.Err? ==> rows == old(rows) && r == Err(o.error))
    {
      if rows[i].status.Retired? {
        return Err(S.AlreadyRetired);
      }
      if !isPrivate(rows[i].policy) {
        return Err(S.NotPrivate);
      }
      for k := 0 to |rows|
        invariant |rows| == |old(rows)|
        invariant forall m :: 0 <= m < k ==> rows[m] == S.RetiredBut(old(rows), i)[m]
        invariant forall m :: k <= m < |rows| ==> rows[m] == old(rows)[m]
      {
        if k != i && rows[k].status.Active? {
          rows := rows[k := rows[k].(status := S.Retired)];
        }
      }
      assert rows == S.RetiredBut(old(rows), i);
      if !rows[i].status.Active? {
        rows := rows[i := rows[i].(status := S.Active, activatedAt := Some(now))];
      }
      return Ok(rows[i].version);
    }

    /** Creating the next version, under the row's database constraints, and activating it where asked. */
    method Add(bps: int, pricing: string, policy: Json, activate: bool, now: int, checks: S.Checks)
      returns (r: Result<nat, S.Refusal>)
      modifies this`rows
      ensures var o := S.Added(old(rows), bps, pricing, policy, activate, now, checks);
        && (o.Ok? ==> rows == o.value && r == Ok(S.Latest(old(rows)) + 1))
        && (o.Err? ==> r == Err(o.error))
    {
      var latest := LatestVersion();
      if !S.InRange(bps) {
        return Err(S.OutOfRange);
      }
      rows := rows + [S.Revision(latest + 1, S.Draft, bps, pricing, policy, None)];
      if activate {
        r := Activate(|rows| - 1, checks.isPrivate, now);
      } else {
        r := Ok(latest + 1);
      }
    }

    /** `_save_settings_revision`. `loaded` is the policy object of the active row; it is copied, and
      * neither it nor anything below it changes. */
    method ConsoleSave(loaded: Dict, us: DictUpdates, commission: Option<int>, now: int, checks: S.Checks)
      returns (r: Result<nat, S.Refusal>)
      requires S.Inv(rows) && loaded.Valid()
      requires S.ActiveAt(rows).Some? ==> loaded.ToJson() == rows[S.ActiveAt(rows).value].policy
      modifies this
      ensures Answers(S.ConsoleSaved(old(State()), us, commission, now, checks), old(State()), State(), r)
      ensures unchanged(loaded.repr)
    {
      var at := FindActive();
      if at.None? {
        return Err(S.NoActive);
      }
      r := SaveOver(loaded, at.value, us, commission, now, checks);
    }

    /** The save over the active row `at`. */
    method SaveOver(loaded: Dict, at: nat, us: DictUpdates, commission: Option<int>, now: int, checks: S.Checks)
      returns (r: Result<nat, S.Refusal>)
      requires S.ActiveAt(rows) == Some(at) && loaded.Valid() && loaded.ToJson() == rows[at].policy
      modifies this
      ensures Answers(S.ConsoleSaved(old(State()), us, commission, now, checks), old(State()), State(), r)
      ensures unchanged(loaded.repr)
    {
      var active := rows[at];
      var draft := Edit(loaded, us);
      if draft.None? {
        return Err(S.PathMissing);
      }
      S.ConsoleSavedIs(State(), us, commission, now, checks, at, draft.value.sent);
      var bps := if commission.Some? then commission.value else active.commission;
      if !checks.accepts(bps, active.pricing, draft.value.sent) {
        return Err(S.Rejected);
      }
      r := Store(draft.value, us, commission, active, now, checks);
    }

    method Store(draft: Draft, us: DictUpdates, commission: Option<int>, active: S.Revision, now: int, checks: S.Checks)
      returns (r: Result<nat, S.Refusal>)
      requires Edited(draft, active.policy, us)
      modifies this
      ensures Answers(S.Stored(old(State()), active, us, commission, draft.sent, now, checks), old(State()), State(), r)
    {
      var start := rows;
      var bps := if commission.Some? then commission.value else active.commission;
      r := Add(bps, active.pricing, draft.sent, true, now, checks);
      if r.Err? {
        rows := start;
        return;
      }
      var report := Report(draft, us, active.policy);
      if report.None? {
        rows := start;
        return Err(S.PathMissing);
      }
      var rates := if commission.Some? then Some((active.commission, bps)) else None;
      audit := audit + [S.Edited(r.value, report.value.0, report.value.1, rates)];
    }

    /** `AdminSettingsView.post`. */
    method ApiPost(bps: int, pricing: string, policy: Json, activate: bool, now: int, checks: S.Checks)
      returns (r: Result<nat, S.Refusal>)
      requires S.Inv(rows)
      modifies this
      ensures Answers(S.ApiPosted(old(State()), bps, pricing, policy, activate, now, checks), old(State()), State(), r)
    {
      if !checks.accepts(bps, pricing, policy) {
        return Err(S.Rejected);
      }
      var start := rows;
      r := Add(bps, pricing, policy, activate, now, checks);
      if r.Err? {
        rows := start;
        return;
      }
      S.AddedKeeps(start, bps, pricing, policy, activate, now, checks);
      var status := rows[|rows| - 1].status;
      audit := audit + [S.Posted(r.value, status, bps, pricing, policy)];
    }
  }
}
