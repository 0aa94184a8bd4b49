/** Password-reset and e-mail verification codes: an attempt budget that holds
  * under concurrent guesses, and the view that spends it. */
module AccessCodes {
  import opened Wrappers
  import opened RowLocks

  datatype Code = Code(attempts: nat, usedAt: Option<nat>, expiresAt: nat)

  predicate IsActive(code: Code, max: nat, now: nat) {
    code.usedAt.None? && code.expiresAt > now && code.attempts < max
  }

  /** `verify`, on the row as locked: the row afterwards. */
  function Verified(code: Code, max: nat, matches: bool, now: nat): Code {
    if !IsActive(code, max, now) then code
    else Code(code.attempts + 1, if matches then Some(now) else code.usedAt, code.expiresAt)
  }

  // ----------------------------------------------------------------------
  // Under any interleaving
  // ----------------------------------------------------------------------

  /** The rows the views lock: codes, and the accounts they belong to. */
  datatype Key = CodeKey(id: nat) | UserKey(id: nat)

  datatype Row = CodeRow(code: Code) | UserRow(password: nat)

  datatype Op = Issue(expiresAt: nat) | Guess(matches: bool, now: nat) | SetPassword(password: nat)

  function Apply(max: nat, row: Option<Row>, op: Op): Option<Row> {
    match op
    case Issue(expiresAt) => if row.None? then Some(CodeRow(Code(0, None, expiresAt))) else row
    case Guess(matches, now) =>
      if row.Some? && row.value.CodeRow? then Some(CodeRow(Verified(row.value.code, max, matches, now))) else row
    case SetPassword(p) => if row.Some? && row.value.UserRow? then Some(UserRow(p)) else row
  }

  function Budget(max: nat): Effect<Row, Op> {
    (row, op) => Apply(max, row, op)
  }

  type Made = Entry<Key, Row, Op>

  /** The guess found an active code, so the hash was compared. */
  predicate IsComparison(max: nat, e: Made) {
    && e.op.Guess? && e.found.Some? && e.found.value.CodeRow?
    && IsActive(e.found.value.code, max, e.op.now)
  }

  function Comparison(max: nat): Made -> bool {
    e => IsComparison(max, e)
  }

  /** Operation `i` of the log compared a guess with code `id`. */
  predicate ComparedAt(max: nat, log: seq<Made>, id: nat, i: int) {
    0 <= i < |log| && log[i].key == CodeKey(id) && IsComparison(max, log[i])
  }

  function Attempts(row: Option<Row>): nat {
    if row.Some? && row.value.CodeRow? then row.value.code.attempts else 0
  }

  predicate Used(row: Option<Row>) {
    row.Some? && row.value.CodeRow? && row.value.code.usedAt.Some?
  }

  /** No row yet, or a code within its maximum. */
  predicate CodeOrNone(max: nat, row: Option<Row>) {
    row.None? || (row.value.CodeRow? && row.value.code.attempts <= max)
  }

  /** One of the first `n` operations compared a right guess. */
  ghost predicate Matched(max: nat, log: seq<Made>, id: nat, n: nat) {
    exists i :: 0 <= i < n && ComparedAt(max, log, id, i) && log[i].op.matches
  }

  /** The budget after the first `n` operations of a log. */
  ghost predicate WithinBudget(max: nat, row0: Option<Row>, log: seq<Made>, id: nat, n: nat)
    requires n <= |log|
  {
    var row := RowAfter(Budget(max), row0, log[..n], CodeKey(id));
    && CodeOrNone(max, row)
    && Count(log[..n], CodeKey(id), Comparison(max)) + Attempts(row0) == Attempts(row)
    && (Used(row) <==> Used(row0) || Matched(max, log, id, n))
  }

  lemma {:induction false} BudgetAfter(max: nat, first: map<Key, Option<Row>>, log: seq<Made>, id: nat, n: nat)
    requires n <= |log| && FoundAll(Budget(max), first, log) && CodeOrNone(max, Get(first, CodeKey(id)))
    ensures WithinBudget(max, Get(first, CodeKey(id)), log, id, n)
  {
    if n > 0 {
      BudgetAfter(max, first, log, id, n - 1);
      assert log[..n][..n - 1] == log[..n - 1];
      assert FoundAt(Budget(max), first, log, n - 1);
      MatchedMore(max, log, id, n - 1);
    }
  }

  lemma MatchedMore(max: nat, log: seq<Made>, id: nat, n: nat)
    requires n < |log|
    ensures Matched(max, log, id, n + 1) <==>
      Matched(max, log, id, n) || (ComparedAt(max, log, id, n) && log[n].op.matches)
  {
  }

  /** In every interleaving of locked transactions, of any shape and on any rows: the committed operations
    * that compared a guess with a code number exactly the attempts it has gained, which stay within the
    * maximum; no comparison follows a right one, so at most one is right; and a code is used exactly when
    * it was before or one was right. */
  lemma BudgetHolds(max: nat, first: map<Key, Option<Row>>, es: seq<Event<Key, Op>>, id: nat)
    requires CodeOrNone(max, Get(first, CodeKey(id)))
    ensures var s := Run(Budget(max), Start(first), es);
      var row0, row := Get(first, CodeKey(id)), Get(s.table, CodeKey(id));
      && Count(s.log, CodeKey(id), Comparison(max)) + Attempts(row0) == Attempts(row) <= max
      && (forall i, j :: i < j && ComparedAt(max, s.log, id, i) && ComparedAt(max, s.log, id, j) ==>
          !s.log[i].op.matches)
      && (Used(row) <==> Used(row0) || exists i :: ComparedAt(max, s.log, id, i) && s.log[i].op.matches)
  {
    var s := Run(Budget(max), Start(first), es);
    Serializable(Budget(max), first, es);
    BudgetAfter(max, first, s.log, id, |s.log|);
    assert s.log[..|s.log|] == s.log;
    forall i, j | i < j && ComparedAt(max, s.log, id, i) && ComparedAt(max, s.log, id, j)
      ensures !s.log[i].op.matches
    {
      BudgetAfter(max, first, s.log, id, j);
      assert FoundAt(Budget(max), first, s.log, j);
    }
  }

  /** Comparisons made in a run exceed the attempts stored exactly when some were lost to a rollback or belong
    * to the transaction that still holds the code. */
  lemma ComparisonsForgotten(max: nat, first: map<Key, Option<Row>>, es: seq<Event<Key, Op>>, id: nat)
    requires CodeOrNone(max, Get(first, CodeKey(id)))
    ensures var s, k, p := Run(Budget(max), Start(first), es), CodeKey(id), Comparison(max);
      var gained := Attempts(Get(s.table, k)) - Attempts(Get(first, k));
      && Count(s.made, k, p) == gained + Count(s.lost, k, p) + Open(s, k, p)
      && (Count(s.made, k, p) > gained <==> Count(s.lost, k, p) > 0 || Open(s, k, p) > 0)
  {
    BudgetHolds(max, first, es, id);
    NothingUnaccounted(Budget(max), first, es, CodeKey(id), Comparison(max));
  }

  /** A guess is compared exactly on a code that is unused, not expired and within its maximum. */
  lemma ComparedIff(max: nat, log: seq<Made>, id: nat, i: int)
    ensures ComparedAt(max, log, id, i) <==>
      && 0 <= i < |log| && log[i].key == CodeKey(id) && log[i].op.Guess?
      && log[i].found.Some? && log[i].found.value.CodeRow?
      && var code := log[i].found.value.code;
         code.usedAt == None && log[i].op.now < code.expiresAt && code.attempts < max
  {
  }

  predicate ExpiresAt(row: Option<Row>, at: nat) {
    row.Some? && row.value.CodeRow? && row.value.code.expiresAt == at
  }

  /** No run moves the expiry of a code. */
  lemma ExpiryStays(max: nat, first: map<Key, Option<Row>>, es: seq<Event<Key, Op>>, id: nat, at: nat)
    requires ExpiresAt(Get(first, CodeKey(id)), at)
    ensures ExpiresAt(Get(Run(Budget(max), Start(first), es).table, CodeKey(id)), at)
  {
    RowInvariant(Budget(max), (row: Option<Row>) => ExpiresAt(row, at), first, es, CodeKey(id));
  }

  /** A successful comparison ends the matter: once committed, the code never changes again in any run. */
  lemma UsedIsFinal(max: nat, first: map<Key, Option<Row>>, es: seq<Event<Key, Op>>, more: seq<Event<Key, Op>>, id: nat)
    requires Used(Get(Run(Budget(max), Start(first), es).table, CodeKey(id)))
    ensures Get(Run(Budget(max), Start(first), es + more).table, CodeKey(id))
         == Get(Run(Budget(max), Start(first), es).table, CodeKey(id))
  {
    FinalRowStays(Budget(max), first, es, more, CodeKey(id));
  }

  // ----------------------------------------------------------------------
  // The password reset view
  // ----------------------------------------------------------------------

  /** The events of `PasswordResetConfirmView.post` for a known account with an
    * unused code: account lock, code lock, the guess, and the password if the
    * guess was right; then the commit, which a wrong guess reaches as well. */
  function ResetBody(t: nat, user: nat, id: nat, ok: bool, matches: bool, now: nat, password: nat)
    : seq<Event<Key, Op>>
  {
    [Acquire(t, UserKey(user)), Acquire(t, CodeKey(id)), Do(t, CodeKey(id), Guess(matches, now))]
    + if ok then [Do(t, UserKey(user), SetPassword(password))] else []
  }

  /** What a reset request has done by its commit. */
  function ResetOps(user: nat, id: nat, ok: bool, matches: bool, now: nat, password: nat): seq<(Key, Op)> {
    [(CodeKey(id), Guess(matches, now))] + if ok then [(UserKey(user), SetPassword(password))] else []
  }

  function OpsOf(done: seq<Made>): seq<(Key, Op)> {
    seq(|done|, i requires 0 <= i < |done| => (done[i].key, done[i].op))
  }

  lemma AcquireAdds(max: nat, s: State<Key, Row, Op>, t: nat, k: Key)
    ensures var x, y := Opened(s.txns, t), Opened(Step(Budget(max), s, Acquire(t, k)).txns, t);
      y.done == x.done && x.copies.Keys <= y.copies.Keys <= x.copies.Keys + {k}
  {
  }

  lemma DoAdds(max: nat, s: State<Key, Row, Op>, t: nat, k: Key, op: Op)
    ensures var x, y := Opened(s.txns, t), Opened(Step(Budget(max), s, Do(t, k, op)).txns, t);
      && y.copies.Keys == x.copies.Keys
      && (k in x.copies ==> OpsOf(y.done) == OpsOf(x.done) + [(k, op)])
  {
  }

  /** The two lock events of a request, among others. */
  lemma ResetLocks(max: nat, s: State<Key, Row, Op>, es: seq<Event<Key, Op>>, t: nat, user: nat, id: nat)
      returns (locked: State<Key, Row, Op>, rest: seq<Event<Key, Op>>)
    requires t !in s.txns && |Mine(es, t)| >= 2
    requires Mine(es, t)[0] == Acquire(t, UserKey(user)) && Mine(es, t)[1] == Acquire(t, CodeKey(id))
    ensures Mine(rest, t) == Mine(es, t)[2..] && Run(Budget(max), s, es) == Run(Budget(max), locked, rest)
    ensures Opened(locked.txns, t).copies.Keys <= {UserKey(user), CodeKey(id)} && Opened(locked.txns, t).done == []
  {
    var m1, r1 := NextOfMine(Budget(max), s, es, t);
    AcquireAdds(max, m1, t, UserKey(user));
    var m2, r2 := NextOfMine(Budget(max), Step(Budget(max), m1, Acquire(t, UserKey(user))), r1, t);
    AcquireAdds(max, m2, t, CodeKey(id));
    locked, rest := Step(Budget(max), m2, Acquire(t, CodeKey(id))), r2;
  }

  /** Whatever others do in between, a request that ends up with both its rows has made exactly its own operations. */
  lemma ResetRuns(max: nat, s: State<Key, Row, Op>, es: seq<Event<Key, Op>>, t: nat, user: nat, id: nat, ok: bool,
                  matches: bool, now: nat, password: nat)
    requires t !in s.txns && Mine(es, t) == ResetBody(t, user, id, ok, matches, now, password)
    requires {UserKey(user), CodeKey(id)} <= Opened(Run(Budget(max), s, es).txns, t).copies.Keys
    ensures var x := Opened(Run(Budget(max), s, es).txns, t);
      && x.copies.Keys == {UserKey(user), CodeKey(id)}
      && OpsOf(x.done) == ResetOps(user, id, ok, matches, now, password)
  {
    var locked, rest := ResetLocks(max, s, es, t, user, id);
    ResetRest(max, locked, rest, t, user, id, ok, matches, now, password);
  }

  lemma ResetRest(max: nat, s: State<Key, Row, Op>, es: seq<Event<Key, Op>>, t: nat, user: nat, id: nat, ok: bool,
                  matches: bool, now: nat, password: nat)
    requires Mine(es, t) == ResetBody(t, user, id, ok, matches, now, password)[2..]
    requires Opened(s.txns, t).done == []
    requires {UserKey(user), CodeKey(id)} <= Opened(Run(Budget(max), s, es).txns, t).copies.Keys
    ensures var x, y := Opened(s.txns, t), Opened(Run(Budget(max), s, es).txns, t);
      y.copies.Keys == x.copies.Keys && OpsOf(y.done) == ResetOps(user, id, ok, matches, now, password)
  {
    var m3, r3 := NextOfMine(Budget(max), s, es, t);
    var a3 := Step(Budget(max), m3, Do(t, CodeKey(id), Guess(matches, now)));
    DoAdds(max, m3, t, CodeKey(id), Guess(matches, now));
    if ok {
      var m4, r4 := NextOfMine(Budget(max), a3, r3, t);
      DoAdds(max, m4, t, UserKey(user), SetPassword(password));
      OthersLeave(Budget(max), Step(Budget(max), m4, Do(t, UserKey(user), SetPassword(password))), r4, t);
    } else {
      OthersLeave(Budget(max), a3, r3, t);
    }
  }

  /** A reset request among any other transactions, up to its commit, that got the locks of its two rows: a right
    * guess on an active code uses it and sets the password; any other guess on an active code still commits its
    * attempt and leaves the password alone; nothing else changes, and the log says what was found. */
  lemma ResetCommits(max: nat, first: map<Key, Option<Row>>, es: seq<Event<Key, Op>>, t: nat, user: nat, id: nat,
                     code: Code, current: nat, matches: bool, now: nat, password: nat)
    requires var ok := IsActive(code, max, now) && matches;
      Mine(es, t) == ResetBody(t, user, id, ok, matches, now, password)
    requires var s := Run(Budget(max), Start(first), es);
      && CodeKey(id) in s.held && s.held[CodeKey(id)] == t && UserKey(user) in s.held && s.held[UserKey(user)] == t
      && Get(s.table, CodeKey(id)) == Some(CodeRow(code)) && Get(s.table, UserKey(user)) == Some(UserRow(current))
    ensures var ok := IsActive(code, max, now) && matches;
      var s, s' := Run(Budget(max), Start(first), es), Run(Budget(max), Start(first), es + [Commit(t)]);
      && Get(s'.table, CodeKey(id)) == Some(CodeRow(Verified(code, max, matches, now)))
      && Get(s'.table, UserKey(user)) == Some(UserRow(if ok then password else current))
      && (forall k :: k != CodeKey(id) && k != UserKey(user) ==> Get(s'.table, k) == Get(s.table, k))
      && s'.log == s.log + [Entry(CodeKey(id), Guess(matches, now), Some(CodeRow(code)))]
                   + if ok then [Entry(UserKey(user), SetPassword(password), Some(UserRow(current)))] else []
  {
    var ok := IsActive(code, max, now) && matches;
    var s := Run(Budget(max), Start(first), es);
    RunKeeps(Budget(max), first, Start(first), es);
    ResetRuns(max, Start(first), es, t, user, id, ok, matches, now, password);
    RunOneMore(Budget(max), Start(first), es, Commit(t));
    LockedCommit(max, s, t, user, id, code, current, matches, now, password);
  }

  lemma LockedCommit(max: nat, s: State<Key, Row, Op>, t: nat, user: nat, id: nat, code: Code, current: nat,
                     matches: bool, now: nat, password: nat)
    requires t in s.txns && TxnOk(Budget(max), s, t)
    requires s.txns[t].copies.Keys == {UserKey(user), CodeKey(id)}
    requires var ok := IsActive(code, max, now) && matches;
      OpsOf(s.txns[t].done) == ResetOps(user, id, ok, matches, now, password)
    requires Get(s.table, CodeKey(id)) == Some(CodeRow(code)) && Get(s.table, UserKey(user)) == Some(UserRow(current))
    ensures var ok := IsActive(code, max, now) && matches;
      var s' := Step(Budget(max), s, Commit(t));
      && Get(s'.table, CodeKey(id)) == Some(CodeRow(Verified(code, max, matches, now)))
      && Get(s'.table, UserKey(user)) == Some(UserRow(if ok then password else current))
      && (forall k :: k != CodeKey(id) && k != UserKey(user) ==> Get(s'.table, k) == Get(s.table, k))
      && s'.log == s.log + [Entry(CodeKey(id), Guess(matches, now), Some(CodeRow(code)))]
                   + if ok then [Entry(UserKey(user), SetPassword(password), Some(UserRow(current)))] else []
  {
    var ok := IsActive(code, max, now) && matches;
    DoneIs(max, s, t, user, id, ok, code, current, matches, now, password);
    CopiesAre(max, s, t, user, id, ok, code, current, matches, now, password);
  }

  lemma DoneIs(max: nat, s: State<Key, Row, Op>, t: nat, user: nat, id: nat, ok: bool, code: Code, current: nat,
               matches: bool, now: nat, password: nat)
    requires t in s.txns && FoundAll(Budget(max), s.table, s.txns[t].done)
    requires OpsOf(s.txns[t].done) == ResetOps(user, id, ok, matches, now, password)
    requires Get(s.table, CodeKey(id)) == Some(CodeRow(code)) && Get(s.table, UserKey(user)) == Some(UserRow(current))
    ensures s.txns[t].done == [Entry(CodeKey(id), Guess(matches, now), Some(CodeRow(code)))]
              + if ok then [Entry(UserKey(user), SetPassword(password), Some(UserRow(current)))] else []
  {
    var done := s.txns[t].done;
    assert |done| == |OpsOf(done)|;
    assert (done[0].key, done[0].op) == OpsOf(done)[0];
    assert FoundAt(Budget(max), s.table, done, 0);
    assert done[..0] == [];
    if ok {
      assert (done[1].key, done[1].op) == OpsOf(done)[1];
      assert FoundAt(Budget(max), s.table, done, 1);
      assert done[..1] == [done[0]] && [done[0]][..0] == [];
      assert RowAfter(Budget(max), Get(s.table, UserKey(user)), [done[0]], UserKey(user))
          == Get(s.table, UserKey(user));
    }
  }

  lemma CopiesAre(max: nat, s: State<Key, Row, Op>, t: nat, user: nat, id: nat, ok: bool, code: Code, current: nat,
                  matches: bool, now: nat, password: nat)
    requires t in s.txns && s.txns[t].copies.Keys == {UserKey(user), CodeKey(id)} && TxnOk(Budget(max), s, t)
    requires s.txns[t].done == [Entry(CodeKey(id), Guess(matches, now), Some(CodeRow(code)))]
               + if ok then [Entry(UserKey(user), SetPassword(password), Some(UserRow(current)))] else []
    requires Get(s.table, CodeKey(id)) == Some(CodeRow(code)) && Get(s.table, UserKey(user)) == Some(UserRow(current))
    ensures s.txns[t].copies[CodeKey(id)] == Some(CodeRow(Verified(code, max, matches, now)))
    ensures s.txns[t].copies[UserKey(user)] == Some(UserRow(if ok then password else current))
  {
    var done := s.txns[t].done;
    var guess := done[0];
    assert [guess][..0] == [];
    forall k
      ensures RowAfter(Budget(max), Get(s.table, k), [guess], k) ==
        if k == CodeKey(id) then Budget(max)(Get(s.table, k), guess.op) else Get(s.table, k)
    {
      assert RowAfter(Budget(max), Get(s.table, k), [], k) == Get(s.table, k);
    }
    if ok {
      assert done[..1] == [guess];
    } else {
      assert done == [guess];
    }
  }

  // ----------------------------------------------------------------------
  // The objects of the source
  // ----------------------------------------------------------------------

  class CodeRecord {
    const id: nat
    const createdAt: nat
    var attempts: nat
    var usedAt: Option<nat>
    var expiresAt: nat

    ghost function View(): Code
      reads this
    {
      Code(attempts, usedAt, expiresAt)
    }

    constructor Issue(id: nat, now: nat, ttl: nat)
      ensures View() == Code(0, None, now + ttl) && this.id == id && createdAt == now
    {
      this.id, createdAt := id, now;
      attempts, usedAt, expiresAt := 0, None, now + ttl;
    }

    /** `matches` is the answer of `check_password`. */
    method Verify(max: nat, matches: bool, now: nat) returns (ok: bool)
      modifies this
      ensures View() == Verified(old(View()), max, matches, now)
      ensures ok <==> matches && old(usedAt) == None && now < old(expiresAt) && old(attempts) < max
      ensures usedAt == (if ok then Some(now) else old(usedAt)) && expiresAt == old(expiresAt)
      ensures attempts ==
        if old(usedAt) == None && now < old(expiresAt) && old(attempts) < max then old(attempts) + 1 else old(attempts)
    {
      if !(usedAt.None? && expiresAt > now && attempts < max) {
        return false;
      }
      attempts := attempts + 1;
      if matches {
        usedAt := Some(now);
      }
      return matches;
    }
  }

  class Account {
    var password: nat
    var codes: seq<CodeRecord>

    constructor (password: nat)
      ensures this.password == password && codes == []
    {
      this.password, codes := password, [];
    }

    /** The newest code of the account that is not used yet. */
    method NewestUnused() returns (code: CodeRecord?)
      ensures code == null <==> forall c :: c in codes ==> c.usedAt.Some?
      ensures code != null ==> code in codes && code.usedAt.None?
      ensures code != null ==> forall c :: c in codes && c.usedAt.None? ==> c.createdAt <= code.createdAt
    {
      code := null;
      for i := 0 to |codes|
        invariant code == null <==> forall k :: 0 <= k < i ==> codes[k].usedAt.Some?
        invariant code != null ==> code in codes && code.usedAt.None?
        invariant code != null ==> forall k :: 0 <= k < i && codes[k].usedAt.None? ==>
          codes[k].createdAt <= code.createdAt
      {
        var c := codes[i];
        if c.usedAt.None? && (code == null || c.createdAt > code.createdAt) {
          code := c;
        }
      }
    }
  }

  /** `PasswordResetConfirmView.post`, for the account the e-mail address finds, if any. `matches` answers
    * `check_password` for the code with a given id; `tried` is the code that the guess was spent on. */
  method ResetConfirm(user: Account?, matches: nat -> bool, max: nat, now: nat, password: nat)
    returns (status: nat, tried: CodeRecord?)
    modifies user, if user == null then [] else user.codes
    ensures tried == null <==> user == null || forall c :: c in old(user.codes) ==> old(c.usedAt).Some?
    ensures tried != null ==> tried in old(user.codes) && old(tried.usedAt).None?
    ensures tried != null ==>
      forall c :: c in old(user.codes) && old(c.usedAt).None? ==> c.createdAt <= tried.createdAt
    ensures status == 204 || status == 400
    ensures status == 204 <==>
      tried != null && matches(tried.id) && now < old(tried.expiresAt) && old(tried.attempts) < max
    ensures tried != null ==> tried.View() == Verified(old(tried.View()), max, matches(tried.id), now)
    ensures user != null ==> forall c :: c in old(user.codes) && c != tried ==> unchanged(c)
    ensures user != null ==> user.codes == old(user.codes)
    ensures user != null ==> user.password == if status == 204 then password else old(user.password)
  {
    if user == null {
      return 400, null;
    }
    tried := user.NewestUnused();
    if tried == null {
      return 400, null;
    }
    var ok := tried.Verify(max, matches(tried.id), now);
    if !ok {
      return 400, tried;
    }
    user.password := password;
    return 204, tried;
  }
}
