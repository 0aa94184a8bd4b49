/** Versioned business settings as values: what one save does, and what every
  * run of saves keeps. */
module Settings {
  import opened Wrappers
  import opened Policy

  datatype Status = Draft | Active | Retired

  datatype Revision = Revision(
    version: nat,
    status: Status,
    commission: int,
    pricing: string,
    policy: Json,
    activatedAt: Option<int>)

  datatype Refusal = NoActive | PathMissing | Rejected | OutOfRange | AlreadyRetired | NotPrivate

  /** The serializer and the location-privacy assertion, which this model does not look into. */
  datatype Checks = Checks(accepts: (int, string, Json) -> bool, isPrivate: Json -> bool)

  datatype Audit =
    | Edited(version: nat, before: seq<Json>, after: seq<Json>, commission: Option<(int, int)>)
    | Posted(version: nat, status: Status, bps: int, pricing: string, policy: Json)

  datatype State = State(rows: seq<Revision>, audit: seq<Audit>)

  datatype Change =
    | ConsoleSave(updates: DictUpdates, commission: Option<int>, now: int)
    | ApiPost(bps: int, pricing: string, policy: Json, activate: bool, now: int)

  // ----------------------------------------------------------------------
  // Rows
  // ----------------------------------------------------------------------

  /** The highest version, 0 where there is none. */
  function Latest(rows: seq<Revision>): nat {
    if rows == [] then 0
    else
      var rest := Latest(rows[..|rows| - 1]);
      var last := rows[|rows| - 1].version;
      if last > rest then last else rest
  }

  function ActiveAt(rows: seq<Revision>): (i: Option<nat>)
    ensures i.Some? ==> i.value < |rows| && rows[i.value].status.Active?
    ensures i.None? ==> forall k :: 0 <= k < |rows| ==> !rows[k].status.Active?
  {
    if rows == [] then None
    else if rows[|rows| - 1].status.Active? then Some(|rows| - 1)
    else ActiveAt(rows[..|rows| - 1])
  }

  /** The database constraints on a new row. */
  predicate InRange(bps: int) { 0 <= bps <= 10_000 }

  function Created(rows: seq<Revision>, bps: int, pricing: string, policy: Json): seq<Revision> {
    rows + [Revision(Latest(rows) + 1, Draft, bps, pricing, policy, None)]
  }

  function RetiredBut(rows: seq<Revision>, i: nat): seq<Revision> {
    seq(|rows|, k requires 0 <= k < |rows| =>
      if k != i && rows[k].status.Active? then rows[k].(status := Retired) else rows[k])
  }

  /** `activate_business_settings` on row `i`. */
  function Activated(rows: seq<Revision>, i: nat, isPrivate: Json -> bool, now: int): Result<seq<Revision>, Refusal>
    requires i < |rows|
  {
    if rows[i].status.Retired? then Err(AlreadyRetired)
    else if !isPrivate(rows[i].policy) then Err(NotPrivate)
    else
      var retired := RetiredBut(rows, i);
      if rows[i].status.Active? then Ok(retired)
      else Ok(retired[i := rows[i].(status := Active, activatedAt := Some(now))])
  }

  /** Creating a row and, where asked, activating it. */
  function Added(rows: seq<Revision>, bps: int, pricing: string, policy: Json, activate: bool, now: int, checks: Checks)
    : Result<seq<Revision>, Refusal>
  {
    if !InRange(bps) then Err(OutOfRange)
    else
      var created := Created(rows, bps, pricing, policy);
      if activate then Activated(created, |rows|, checks.isPrivate, now) else Ok(created)
  }

  /** The second half of `_save_settings_revision`: the new row, its activation, the audit record. */
  ghost function Stored(s: State, active: Revision, us: Updates, commission: Option<int>, policy: Json, now: int,
                        checks: Checks): Result<State, Refusal>
    requires AllThere(active.policy, us)
  {
    var bps := if commission.Some? then commission.value else active.commission;
    var added := Added(s.rows, bps, active.pricing, policy, true, now, checks);
    if added.Err? then Err(added.error)
    else if !AllThere(policy, us) then Err(PathMissing)
    else
      var rates := if commission.Some? then Some((active.commission, bps)) else None;
      var entry := Edited(Latest(s.rows) + 1, Values(active.policy, us), Values(policy, us), rates);
      Ok(State(added.value, s.audit + [entry]))
  }

  /** `_save_settings_revision`; a refusal at any point rolls the whole save back. */
  ghost function ConsoleSaved(s: State, us: Updates, commission: Option<int>, now: int, checks: Checks)
    : Result<State, Refusal>
  {
    var at := ActiveAt(s.rows);
    if at.None? then Err(NoActive)
    else
      var active := s.rows[at.value];
      var bps := if commission.Some? then commission.value else active.commission;
      var policy := SetAll(active.policy, us);
      if !AllThere(active.policy, us) || policy.None? then Err(PathMissing)
      else if !checks.accepts(bps, active.pricing, policy.value) then Err(Rejected)
      else Stored(s, active, us, commission, policy.value, now, checks)
  }

  /** Past the checks on the draft, a save is its second half. */
  lemma ConsoleSavedIs(s: State, us: Updates, commission: Option<int>, now: int, checks: Checks, at: nat, sent: Json)
    requires ActiveAt(s.rows) == Some(at) && AllThere(s.rows[at].policy, us) &&
      SetAll(s.rows[at].policy, us) == Some(sent)
    ensures var active := s.rows[at];
      var bps := if commission.Some? then commission.value else active.commission;
      ConsoleSaved(s, us, commission, now, checks)
        == if checks.accepts(bps, active.pricing, sent) then Stored(s, active, us, commission, sent, now, checks)
           else Err(Rejected)
  {
  }

  /** `AdminSettingsView.post`. */
  function ApiPosted(s: State, bps: int, pricing: string, policy: Json, activate: bool, now: int, checks: Checks)
    : Result<State, Refusal>
  {
    if !checks.accepts(bps, pricing, policy) then Err(Rejected)
    else
      var added := Added(s.rows, bps, pricing, policy, activate, now, checks);
      if added.Err? then Err(added.error)
      else
        var status := if activate then Active else Draft;
        Ok(State(added.value, s.audit + [Posted(Latest(s.rows) + 1, status, bps, pricing, policy)]))
  }

  ghost function Step(s: State, e: Change, checks: Checks): State {
    var r := match e
      case ConsoleSave(us, commission, now) => ConsoleSaved(s, us, commission, now, checks)
      case ApiPost(bps, pricing, policy, activate, now) => ApiPosted(s, bps, pricing, policy, activate, now, checks);
    if r.Ok? then r.value else s
  }

  ghost function Run(s: State, es: seq<Change>, checks: Checks): State
    decreases |es|
  {
    if es == [] then s else Run(Step(s, es[0], checks), es[1..], checks)
  }

  // ----------------------------------------------------------------------
  // What every save keeps
  // ----------------------------------------------------------------------

  ghost predicate Inv(rows: seq<Revision>) {
    && (forall i, k :: 0 <= i < k < |rows| ==> rows[i].version < rows[k].version)
    && (forall i, k :: 0 <= i < |rows| && 0 <= k < |rows| && rows[i].status.Active? && rows[k].status.Active?
          ==> i == k)
    && (forall i :: 0 <= i < |rows| ==> InRange(rows[i].commission))
  }

  /** No row disappears or changes its values; retired rows stay retired and drafts stay drafts. */
  ghost predicate Follows(rows: seq<Revision>, later: seq<Revision>) {
    && |rows| <= |later|
    && (forall i :: 0 <= i < |rows| ==>
          && later[i] == rows[i].(status := later[i].status)
          && (later[i].status == rows[i].status || (rows[i].status.Active? && later[i].status.Retired?)))
  }

  /** The active version of the later state is the same row or a strictly newer one. */
  ghost predicate ActiveMovesUp(rows: seq<Revision>, later: seq<Revision>) {
    ActiveAt(rows).Some? ==>
      && ActiveAt(later).Some?
      && var i, k := ActiveAt(rows).value, ActiveAt(later).value;
         i == k || (|rows| <= k && rows[i].version < later[k].version)
  }

  lemma {:induction false} LatestBounds(rows: seq<Revision>)
    ensures forall i :: 0 <= i < |rows| ==> rows[i].version <= Latest(rows)
    ensures Latest(rows) > 0 ==> exists i :: 0 <= i < |rows| && rows[i].version == Latest(rows)
  {
    if rows != [] {
      var rest := rows[..|rows| - 1];
      LatestBounds(rest);
      forall i | 0 <= i < |rows|
        ensures rows[i].version <= Latest(rows)
      {
        assert i < |rest| ==> rest[i] == rows[i];
      }
      if rows[|rows| - 1].version >= Latest(rest) {
        assert rows[|rows| - 1].version == Latest(rows);
      } else {
        var i :| 0 <= i < |rest| && rest[i].version == Latest(rest);
        assert rows[i].version == Latest(rows);
      }
    }
  }

  lemma OnlyActive(rows: seq<Revision>, i: nat)
    requires Inv(rows) && i < |rows| && rows[i].status.Active?
    ensures ActiveAt(rows) == Some(i)
  {
  }

  /** Activating any row: refused for a retired one; otherwise that row alone is active afterwards, the
    * one that was active is retired, and nothing else changes. */
  lemma ActivatedMeaning(rows: seq<Revision>, i: nat, isPrivate: Json -> bool, now: int)
    requires Inv(rows) && i < |rows|
    ensures Activated(rows, i, isPrivate, now).Ok? <==> !rows[i].status.Retired? && isPrivate(rows[i].policy)
    ensures Activated(rows, i, isPrivate, now).Ok? ==>
      var later := Activated(rows, i, isPrivate, now).value;
      && Inv(later) && |later| == |rows| && ActiveAt(later) == Some(i)
      && (forall k :: 0 <= k < |rows| && k != i ==>
            later[k] == if rows[k].status.Active? then rows[k].(status := Retired) else rows[k])
      && later[i] == (if rows[i].status.Active? then rows[i] else rows[i].(status := Active, activatedAt := Some(now)))
  {
    var r := Activated(rows, i, isPrivate, now);
    if r.Ok? {
      OnlyActive(r.value, i);
    }
  }

  lemma CreatedKeeps(rows: seq<Revision>, bps: int, pricing: string, policy: Json)
    requires Inv(rows) && InRange(bps)
    ensures Inv(Created(rows, bps, pricing, policy)) && ActiveAt(Created(rows, bps, pricing, policy)) == ActiveAt(rows)
  {
  }

  lemma AddedKeeps(rows: seq<Revision>, bps: int, pricing: string, policy: Json, activate: bool, now: int,
                   checks: Checks)
    requires Inv(rows) && Added(rows, bps, pricing, policy, activate, now, checks).Ok?
    ensures var later := Added(rows, bps, pricing, policy, activate, now, checks).value;
      && Inv(later) && Follows(rows, later) && ActiveMovesUp(rows, later)
      && |later| == |rows| + 1
      && later[|rows|].version == Latest(rows) + 1
      && later[|rows|].policy == policy && later[|rows|].commission == bps && later[|rows|].pricing == pricing
      && (activate ==> ActiveAt(later) == Some(|rows|))
      && (!activate ==> ActiveAt(later) == ActiveAt(rows) && later[|rows|].status.Draft?)
  {
    CreatedKeeps(rows, bps, pricing, policy);
    LatestBounds(rows);
    if activate {
      ActivatedMeaning(Created(rows, bps, pricing, policy), |rows|, checks.isPrivate, now);
    }
  }

  // ----------------------------------------------------------------------
  // When a save goes through, and what it then did
  // ----------------------------------------------------------------------

  /** What the new row of a console save holds. */
  ghost predicate Replaces(rows: seq<Revision>, later: seq<Revision>, us: Updates, commission: Option<int>) {
    && ActiveAt(rows).Some? && ActiveAt(later) == Some(|rows|) && |later| == |rows| + 1
    && var was, now := rows[ActiveAt(rows).value], later[|rows|];
       && EqualExceptAt(was.policy, now.policy, us)
       && now.pricing == was.pricing
       && now.commission == (if commission.Some? then commission.value else was.commission)
       && now.status == Active
       && later[ActiveAt(rows).value] == was.(status := Retired)
  }

  /** A console save goes through exactly when there is an active revision, every path exists in its
    * policy, no path leads below another, and the checks accept the edited policy. */
  lemma ConsoleSaveIff(s: State, us: DictUpdates, commission: Option<int>, now: int, checks: Checks)
    ensures ConsoleSaved(s, us, commission, now, checks).Ok? <==>
      && ActiveAt(s.rows).Some?
      && var active := s.rows[ActiveAt(s.rows).value];
         var bps := if commission.Some? then commission.value else active.commission;
         && AllThere(active.policy, us) && PrefixFree(us)
         && SetAll(active.policy, us).Some?
         && var policy := SetAll(active.policy, us).value;
            checks.accepts(bps, active.pricing, policy) && InRange(bps) && checks.isPrivate(policy)
  {
    if ActiveAt(s.rows).Some? {
      GetsThroughIff(s.rows[ActiveAt(s.rows).value].policy, us);
    }
  }

  lemma ConsoleSaveMeaning(s: State, us: DictUpdates, commission: Option<int>, now: int, checks: Checks)
    requires Inv(s.rows) && ConsoleSaved(s, us, commission, now, checks).Ok?
    ensures var t := ConsoleSaved(s, us, commission, now, checks).value;
      && Inv(t.rows) && Follows(s.rows, t.rows) && ActiveMovesUp(s.rows, t.rows)
      && Replaces(s.rows, t.rows, us, commission)
      && |t.audit| == |s.audit| + 1 && s.audit <= t.audit
      && var entry := t.audit[|s.audit|];
         && t.rows[|s.rows|].activatedAt == Some(now)
         && entry.Edited? && entry.version == t.rows[|s.rows|].version
         && entry.commission == (if commission.None? then None
                                 else Some((s.rows[ActiveAt(s.rows).value].commission, t.rows[|s.rows|].commission)))
         && |entry.before| == |entry.after| == |us|
         && forall i :: 0 <= i < |us| ==>
              && Dig(s.rows[ActiveAt(s.rows).value].policy, us[i].0) == Some(entry.before[i])
              && entry.after[i] == Leaf(us[i].1)
  {
    ConsoleSaveIff(s, us, commission, now, checks);
    var active := s.rows[ActiveAt(s.rows).value];
    var bps := if commission.Some? then commission.value else active.commission;
    var policy := SetAll(active.policy, us).value;
    SetAllMeaning(active.policy, us);
    AddedKeeps(s.rows, bps, active.pricing, policy, true, now, checks);
  }

  /** An API post goes through exactly when the checks accept it, the rate is in range and, if it is to be activated,
    * the policy passes the privacy assertion. */
  lemma ApiPostIff(s: State, bps: int, pricing: string, policy: Json, activate: bool, now: int, checks: Checks)
    ensures ApiPosted(s, bps, pricing, policy, activate, now, checks).Ok? <==>
      checks.accepts(bps, pricing, policy) && 0 <= bps <= 10_000 && (activate ==> checks.isPrivate(policy))
  {
  }

  /** It adds one revision with the next version and exactly what was posted, active now if asked and a draft otherwise,
    * and one audit record that says so; a revision that was active is retired only for an active one. */
  lemma ApiPostMeaning(s: State, bps: int, pricing: string, policy: Json, activate: bool, now: int, checks: Checks)
    requires Inv(s.rows) && ApiPosted(s, bps, pricing, policy, activate, now, checks).Ok?
    ensures var t := ApiPosted(s, bps, pricing, policy, activate, now, checks).value;
      var status, version := if activate then Active else Draft, Latest(s.rows) + 1;
      && |t.rows| == |s.rows| + 1
      && t.rows[|s.rows|] == Revision(version, status, bps, pricing, policy, if activate then Some(now) else None)
      && (forall i :: 0 <= i < |s.rows| ==>
            t.rows[i] == if activate && s.rows[i].status.Active? then s.rows[i].(status := Retired) else s.rows[i])
      && t.audit == s.audit + [Posted(version, status, bps, pricing, policy)]
  {
    if activate {
      CreatedKeeps(s.rows, bps, pricing, policy);
      ActivatedMeaning(Created(s.rows, bps, pricing, policy), |s.rows|, checks.isPrivate, now);
    }
  }

  lemma StepKeeps(s: State, e: Change, checks: Checks)
    requires Inv(s.rows)
    ensures var t := Step(s, e, checks);
      Inv(t.rows) && Follows(s.rows, t.rows) && ActiveMovesUp(s.rows, t.rows) && s.audit <= t.audit
  {
    match e
    case ConsoleSave(us, commission, now) =>
      if ConsoleSaved(s, us, commission, now, checks).Ok? {
        ConsoleSaveMeaning(s, us, commission, now, checks);
      }
    case ApiPost(bps, pricing, policy, activate, now) =>
      if ApiPosted(s, bps, pricing, policy, activate, now, checks).Ok? {
        AddedKeeps(s.rows, bps, pricing, policy, activate, now, checks);
      }
  }

  lemma FollowsOn(rows: seq<Revision>, mid: seq<Revision>, later: seq<Revision>)
    requires Follows(rows, mid) && Follows(mid, later) && ActiveMovesUp(rows, mid) && ActiveMovesUp(mid, later)
    ensures Follows(rows, later) && ActiveMovesUp(rows, later)
  {
  }

  // ----------------------------------------------------------------------
  // Every run
  // ----------------------------------------------------------------------

  ghost predicate ExactlyOneActive(rows: seq<Revision>) {
    exists i :: 0 <= i < |rows| && rows[i].status.Active? &&
      forall k :: 0 <= k < |rows| && rows[k].status.Active? ==> k == i
  }

  /** Over every run of saves: versions strictly increase, there is at most one active revision and
    * exactly one once one exists, no revision is changed but for being retired, none comes back from
    * retirement, and a newly active revision has a strictly higher version than the one before. */
  lemma {:induction false} RunKeeps(s: State, es: seq<Change>, checks: Checks)
    requires Inv(s.rows)
    ensures var t := Run(s, es, checks);
      && Inv(t.rows) && Follows(s.rows, t.rows) && ActiveMovesUp(s.rows, t.rows) && s.audit <= t.audit
      && (ActiveAt(s.rows).Some? ==> ExactlyOneActive(t.rows))
    decreases |es|
  {
    if es != [] {
      var mid := Step(s, es[0], checks);
      StepKeeps(s, es[0], checks);
      RunKeeps(mid, es[1..], checks);
      FollowsOn(s.rows, mid.rows, Run(s, es, checks).rows);
    }
    var t := Run(s, es, checks);
    if ActiveAt(s.rows).Some? {
      assert t.rows[ActiveAt(t.rows).value].status.Active?;
    }
  }

  lemma {:induction false} RunSplits(s: State, es: seq<Change>, more: seq<Change>, checks: Checks)
    ensures Run(s, es + more, checks) == Run(Run(s, es, checks), more, checks)
    decreases |es|
  {
    if es == [] {
      assert es + more == more;
    } else {
      assert (es + more)[1..] == es[1..] + more;
      RunSplits(Step(s, es[0], checks), es[1..], more, checks);
    }
  }

  /** Any two moments of one run: the later active revision is the earlier one or strictly newer, and what
    * was retired at the earlier moment is retired at the later one. */
  lemma RetiredForGood(s: State, es: seq<Change>, more: seq<Change>, checks: Checks, i: nat)
    requires Inv(s.rows)
    ensures var mid, t := Run(s, es, checks).rows, Run(s, es + more, checks).rows;
      && ActiveMovesUp(mid, t)
      && (i < |mid| && mid[i].status.Retired? ==> i < |t| && t[i] == mid[i])
  {
    RunKeeps(s, es, checks);
    RunSplits(s, es, more, checks);
    RunKeeps(Run(s, es, checks), more, checks);
  }
}
