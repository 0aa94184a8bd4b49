/** Administrator invitations (`AdminInvitation`): single use, under concurrency. */
module Invitations {
  import opened Wrappers
  import opened RowLocks
  import opened AdminRoles

  datatype Invitation = Invitation(
    email: string, role: Role, expiresAt: int, usedAt: Option<int>, revokedAt: Option<int>, acceptedBy: Option<nat>)

  predicate IsActive(i: Invitation, now: int) {
    i.usedAt.None? && i.revokedAt.None? && i.expiresAt > now
  }

  /** A locked revocation: `is_active`, then `revoke`. */
  function Revoked(i: Invitation, now: int): Invitation {
    if IsActive(i, now) then i.(revokedAt := Some(now)) else i
  }

  /** A locked acceptance, as far as the invitation row goes. */
  function Accepted(i: Invitation, user: nat, now: int): Invitation {
    if IsActive(i, now) then i.(usedAt := Some(now), acceptedBy := Some(user)) else i
  }

  datatype Op = Issue(row: Invitation) | Revoke(now: int) | Accept(user: nat, now: int)

  function Apply(row: Option<Invitation>, op: Op): Option<Invitation> {
    match op
    case Issue(i) => if row.None? then Some(i.(usedAt := None, revokedAt := None, acceptedBy := None)) else row
    case Revoke(now) => if row.None? then row else Some(Revoked(row.value, now))
    case Accept(user, now) => if row.None? then row else Some(Accepted(row.value, user, now))
  }

  type Made = Entry<nat, Invitation, Op>

  /** Operation `i` of the log accepted or revoked invitation `id`: it found it active. */
  predicate SettledAt(log: seq<Made>, id: nat, i: int) {
    && 0 <= i < |log| && log[i].key == id && !log[i].op.Issue?
    && log[i].found.Some? && IsActive(log[i].found.value, log[i].op.now)
  }

  predicate IsSettled(row: Option<Invitation>) {
    row.Some? && (row.value.usedAt.Some? || row.value.revokedAt.Some?)
  }

  predicate IsUsed(row: Option<Invitation>) {
    row.Some? && row.value.usedAt.Some?
  }

  /** The row that an effective operation leaves. */
  predicate Outcome(row: Option<Invitation>, op: Op) {
    match op
    case Issue(_) => false
    case Revoke(now) =>
      row.Some? && row.value.revokedAt == Some(now) && row.value.usedAt.None? && now < row.value.expiresAt
    case Accept(user, now) =>
      && row.Some? && row.value.usedAt == Some(now) && row.value.acceptedBy == Some(user)
      && row.value.revokedAt.None? && now < row.value.expiresAt
  }

  /** The row where nothing settled the invitation: as it was, or newly issued. */
  predicate Quiet(row0: Option<Invitation>, row: Option<Invitation>) {
    row == row0 || (row0.None? && row.Some? && !IsSettled(row) && row.value.acceptedBy.None?)
  }

  /** The invitation after the first `n` operations of a log. */
  ghost predicate Ledger(row0: Option<Invitation>, log: seq<Made>, id: nat, n: nat)
    requires n <= |log|
  {
    var row := RowAfter(Apply, row0, log[..n], id);
    && (forall i, j :: i < j < n ==> !(SettledAt(log, id, i) && SettledAt(log, id, j)))
    && (forall i :: i < n && SettledAt(log, id, i) ==> !IsSettled(row0) && Outcome(row, log[i].op))
    && (Quiet(row0, row) || exists i :: i < n && SettledAt(log, id, i))
  }

  lemma {:induction false} LedgerAfter(first: map<nat, Option<Invitation>>, log: seq<Made>, id: nat, n: nat)
    requires n <= |log| && FoundAll(Apply, first, log)
    ensures Ledger(Get(first, id), log, id, n)
  {
    if n > 0 {
      LedgerAfter(first, log, id, n - 1);
      assert log[..n][..n - 1] == log[..n - 1];
      assert FoundAt(Apply, first, log, n - 1);
      var e := log[n - 1];
      if e.key == id && !SettledAt(log, id, n - 1) {
        assert Apply(e.found, e.op) == e.found || (e.found.None? && e.op.Issue?);
      }
    }
  }

  /** In every interleaving of locked transactions: at most one committed operation settles an invitation, so it is
    * never accepted twice nor both accepted and revoked, and none does if it was settled before.  It is used exactly
    * if it was before or an acceptance settled it, which then is the one recorded, with its account. */
  lemma SingleUseHolds(first: map<nat, Option<Invitation>>, es: seq<Event<nat, Op>>, id: nat)
    ensures var s := Run(Apply, Start(first), es);
      var row0, row := Get(first, id), Get(s.table, id);
      && (forall i, j :: SettledAt(s.log, id, i) && SettledAt(s.log, id, j) ==> i == j)
      && (forall i :: SettledAt(s.log, id, i) ==> !IsSettled(row0) && Outcome(row, s.log[i].op))
      && (Quiet(row0, row) || exists i :: SettledAt(s.log, id, i))
      && (IsUsed(row) <==> IsUsed(row0) || exists i :: SettledAt(s.log, id, i) && s.log[i].op.Accept?)
  {
    var s := Run(Apply, Start(first), es);
    Serializable(Apply, first, es);
    LedgerAfter(first, s.log, id, |s.log|);
    assert s.log[..|s.log|] == s.log;
  }

  /** The terms of an invitation are those of the row there at first or of the operation that issued it. */
  ghost predicate Terms(row0: Option<Invitation>, row: Option<Invitation>, log: seq<Made>, id: nat, n: nat) {
    row.Some? ==> || (row0.Some? && SameTerms(row0.value, row.value))
                  || exists i :: 0 <= i < n <= |log| && IssuedAt(log, id, i) && SameTerms(log[i].op.row, row.value)
  }

  predicate SameTerms(a: Invitation, b: Invitation) {
    a.email == b.email && a.role == b.role && a.expiresAt == b.expiresAt
  }

  predicate IssuedAt(log: seq<Made>, id: nat, i: int) {
    0 <= i < |log| && log[i].key == id && log[i].op.Issue? && log[i].found.None?
  }

  lemma {:induction false} TermsAfter(first: map<nat, Option<Invitation>>, log: seq<Made>, id: nat, n: nat)
    requires n <= |log| && FoundAll(Apply, first, log)
    ensures Terms(Get(first, id), RowAfter(Apply, Get(first, id), log[..n], id), log, id, n)
  {
    if n > 0 {
      TermsAfter(first, log, id, n - 1);
      assert log[..n][..n - 1] == log[..n - 1];
      assert FoundAt(Apply, first, log, n - 1);
      assert log[n - 1].key == id ==> IssuedAt(log, id, n - 1) || !log[n - 1].op.Issue? || log[n - 1].found.Some?;
    }
  }

  /** In every interleaving an invitation keeps the e-mail address, role and expiry it had at first, or else those of
    * the committed operation that issued it. */
  lemma TermsHold(first: map<nat, Option<Invitation>>, es: seq<Event<nat, Op>>, id: nat)
    ensures var s := Run(Apply, Start(first), es);
      Terms(Get(first, id), Get(s.table, id), s.log, id, |s.log|)
  {
    var s := Run(Apply, Start(first), es);
    Serializable(Apply, first, es);
    TermsAfter(first, s.log, id, |s.log|);
    assert s.log[..|s.log|] == s.log;
  }

  predicate NotBoth(row: Option<Invitation>) {
    row.Some? ==> row.value.usedAt.None? || row.value.revokedAt.None?
  }

  /** Whatever the first rows are, no operation makes one both used and revoked. */
  lemma NeverBoth(first: map<nat, Option<Invitation>>, es: seq<Event<nat, Op>>, id: nat)
    requires NotBoth(Get(first, id))
    ensures NotBoth(Get(Run(Apply, Start(first), es).table, id))
  {
    RowInvariant(Apply, NotBoth, first, es, id);
  }

  /** Once committed as used or revoked, an invitation never changes again in any run. */
  lemma SettledIsFinal(first: map<nat, Option<Invitation>>, es: seq<Event<nat, Op>>, more: seq<Event<nat, Op>>, id: nat)
    requires IsSettled(Get(Run(Apply, Start(first), es).table, id))
    ensures Get(Run(Apply, Start(first), es + more).table, id) == Get(Run(Apply, Start(first), es).table, id)
  {
    FinalRowStays(Apply, first, es, more, id);
  }
}
