/**
 One-time email tokens: password reset, magic login and email verification.

 Consuming a token is a transaction: read the row under FOR UPDATE, check it, mark it used,
 commit. Other transactions run between those statements; the row lock is the only
 protection. Issuing a token is a transaction too: it retires the unused tokens of the same user
 and kind that its UPDATE saw when it started, and inserts the new one.

 Consuming a verification token marks the account as verified unless it was deleted. Two other
 writers touch that column: an owner who adds an account to a tenant, and a profile edit, which
 writes back the whole account as it read it.
 */
module EmailTokens {
  import opened Common

  datatype Kind = PasswordReset | MagicLogin | EmailVerification

  /** A row of a token table; its id is its position. */
  datatype Token = Token(user: nat, kind: Kind, hash: string, expiresAt: int, usedAt: Option<int>)

  type Table = seq<Token>

  // --- The statements ----------------------------------------------------------------------

  predicate Unused(t: Token, user: nat, kind: Kind) {
    t.user == user && t.kind == kind && t.usedAt.None?
  }

  /** UPDATE ... SET used_at = now WHERE user_id, purpose match AND used_at IS NULL. */
  function InvalidateActive(rows: Table, user: nat, kind: Kind, now: int): (after: Table)
    ensures |after| == |rows|
    ensures forall i :: 0 <= i < |rows| ==>
              after[i] == if Unused(rows[i], user, kind) then rows[i].(usedAt := Some(now)) else rows[i]
  {
    seq(|rows|, i requires 0 <= i < |rows| =>
      if Unused(rows[i], user, kind) then rows[i].(usedAt := Some(now)) else rows[i])
  }

  /** Position of the row with this hash and kind, or the table size. */
  function Find(rows: Table, hash: string, kind: Kind): (id: nat)
    ensures id <= |rows|
    ensures id < |rows| ==> rows[id].hash == hash && rows[id].kind == kind
    ensures id == |rows| ==> forall i :: 0 <= i < |rows| ==> !(rows[i].hash == hash && rows[i].kind == kind)
  {
    if rows == [] then 0
    else if rows[0].hash == hash && rows[0].kind == kind then 0
    else 1 + Find(rows[1..], hash, kind)
  }

  predicate Consumable(t: Token, now: int) {
    t.usedAt.None? && t.expiresAt > now
  }

  // --- Interleaved transactions -------------------------------------------------------------

  /** How far a consuming transaction has got. */
  datatype Call =
    | Started(hash: string, kind: Kind, now: int)
    | Holding(token: nat, read: Token, now: int)
    | Written(token: nat, read: Token, now: int)
    | Committed(token: nat, user: nat)
    | Refused

  /** A token to be issued, and the rows its UPDATE saw as unused; once it has them locked, those it retires. */
  datatype Issuing = Issuing(user: nat, kind: Kind, hash: string, lifetime: nat, now: int, seen: set<nat>, locked: bool)

  /** A committed consumption, and whether the token's account existed undeleted then. */
  datatype Consumption = Consumption(token: nat, now: int, live: bool)

  datatype Account = Account(verifiedAt: Option<int>, deleted: bool)

  /** A profile edit between reading the account and writing it back. */
  datatype Edit = Edit(user: nat, verifiedAt: Option<int>)

  /**
   The accounts and the profile edits in flight; and as history the accounts an owner added, and
   those whose last mark was overwritten by an edit.
   */
  datatype People = People(accounts: map<nat, Account>, edits: map<nat, Edit>, added: set<nat>, overwritten: set<nat>)

  /** Committed rows, row locks, transactions in flight, the accounts, and the history of consumptions. */
  datatype State = State(
    rows: Table,
    locks: map<nat, nat>,
    calls: map<nat, Call>,
    issues: map<nat, Issuing>,
    people: People,
    history: seq<Consumption>)

  const NOBODY := People(map[], map[], {}, {})

  const START := Idle([])

  /** A table nobody is using. */
  function Idle(rows: Table): State {
    State(rows, map[], map[], map[], NOBODY, [])
  }

  datatype Action =
    | BeginIssue(issue: nat, user: nat, kind: Kind, hash: string, lifetime: nat, now: int)
    | Retire(issue: nat)
    | InsertToken(issue: nat)
    | AbortIssue(issue: nat)
    | Begin(call: nat, hash: string, kind: Kind, now: int)
    | SelectForUpdate(call: nat)
    | CheckAndWrite(call: nat)
    | Commit(call: nat)
    | Rollback(call: nat)
    | Register(user: nat)
    | OwnerAdds(user: nat, now: int)
    | DeleteUser(user: nat)
    | ReadProfile(edit: nat, user: nat)
    | WriteProfile(edit: nat)

  predicate Live(p: People, user: nat) {
    user in p.accounts && !p.accounts[user].deleted
  }

  predicate Verified(p: People, user: nat) {
    user in p.accounts && p.accounts[user].verifiedAt.Some?
  }

  /** UPDATE users SET email_verified_at ... WHERE id = user AND deleted_at IS NULL. */
  function SetVerified(p: People, user: nat, verifiedAt: Option<int>): People {
    if Live(p, user) then
      p.(accounts := p.accounts[user := p.accounts[user].(verifiedAt := verifiedAt)],
         overwritten := if verifiedAt.Some? then p.overwritten - {user}
                        else if Verified(p, user) then p.overwritten + {user} else p.overwritten)
    else p
  }

  /** The writers of accounts other than token consumption. */
  function PeopleStep(p: People, a: Action): People {
    match a
    case Register(user) => if user in p.accounts then p else p.(accounts := p.accounts[user := Account(None, false)])
    case OwnerAdds(user, now) =>
      if user !in p.accounts then p.(accounts := p.accounts[user := Account(Some(now), false)], added := p.added + {user})
      else if Live(p, user) then SetVerified(p, user, Some(now)).(added := p.added + {user})
      else p
    case DeleteUser(user) =>
      if Live(p, user) then p.(accounts := p.accounts[user := p.accounts[user].(deleted := true)]) else p
    case ReadProfile(edit, user) =>
      if Live(p, user) && edit !in p.edits then p.(edits := p.edits[edit := Edit(user, p.accounts[user].verifiedAt)]) else p
    case WriteProfile(edit) =>
      if edit in p.edits then SetVerified(p, p.edits[edit].user, p.edits[edit].verifiedAt).(edits := p.edits - {edit}) else p
    case _ => p
  }

  predicate Retires(i: Issuing, token: nat) {
    i.locked && token in i.seen
  }

  /** The row is locked by a consuming or an issuing transaction. */
  predicate IsLocked(s: State, token: nat) {
    token in s.locks || exists n :: n in s.issues && Retires(s.issues[n], token)
  }

  /** The rows of a snapshot that are still unused. */
  function StillUnused(rows: Table, i: Issuing): set<nat> {
    set k | k in i.seen && k < |rows| && Unused(rows[k], i.user, i.kind)
  }

  function AllUnused(rows: Table, user: nat, kind: Kind): set<nat> {
    set k | 0 <= k < |rows| && Unused(rows[k], user, kind)
  }

  predicate HashExists(rows: Table, hash: string) {
    exists k :: 0 <= k < |rows| && rows[k].hash == hash
  }

  /** The table after an issuing transaction commits. */
  function Issued(rows: Table, i: Issuing): (after: Table)
    ensures |after| == |rows| + 1
    ensures forall k :: 0 <= k < |rows| ==> after[k] == if k in i.seen then rows[k].(usedAt := Some(i.now)) else rows[k]
    ensures after[|rows|] == Token(i.user, i.kind, i.hash, i.now + i.lifetime, None)
  {
    seq(|rows|, k requires 0 <= k < |rows| => if k in i.seen then rows[k].(usedAt := Some(i.now)) else rows[k])
    + [Token(i.user, i.kind, i.hash, i.now + i.lifetime, None)]
  }

  predicate HasLock(c: Call) {
    c.Holding? || c.Written?
  }

  /** One statement of one transaction; a blocked or impossible statement changes nothing. */
  function Step(s: State, a: Action): State {
    match a
    case BeginIssue(n, user, kind, hash, lifetime, now) =>
      if n !in s.issues
      then s.(issues := s.issues[n := Issuing(user, kind, hash, lifetime, now, AllUnused(s.rows, user, kind), false)]) else s
    case Retire(n) =>
      if n in s.issues && !s.issues[n].locked && forall k :: k in s.issues[n].seen ==> !IsLocked(s, k)
      then s.(issues := s.issues[n := s.issues[n].(seen := StillUnused(s.rows, s.issues[n]), locked := true)]) else s
    case InsertToken(n) =>
      if n in s.issues && s.issues[n].locked && !HashExists(s.rows, s.issues[n].hash)
      then s.(rows := Issued(s.rows, s.issues[n]), issues := s.issues - {n}) else s
    case AbortIssue(n) => s.(issues := s.issues - {n})
    case Begin(call, hash, kind, now) =>
      if call !in s.calls then s.(calls := s.calls[call := Started(hash, kind, now)]) else s
    case SelectForUpdate(call) =>
      if call in s.calls && s.calls[call].Started? then
        var c := s.calls[call];
        var id := Find(s.rows, c.hash, c.kind);
        if id == |s.rows| then s.(calls := s.calls[call := Refused])
        else if IsLocked(s, id) then s
        else s.(locks := s.locks[id := call], calls := s.calls[call := Holding(id, s.rows[id], c.now)])
      else s
    case CheckAndWrite(call) =>
      if call in s.calls && s.calls[call].Holding? then
        var c := s.calls[call];
        if Consumable(c.read, c.now) then s.(calls := s.calls[call := Written(c.token, c.read, c.now)])
        else s.(locks := s.locks - {c.token}, calls := s.calls[call := Refused])
      else s
    case Commit(call) =>
      if call in s.calls && s.calls[call].Written? && s.calls[call].token < |s.rows| then
        var c := s.calls[call];
        State(
          s.rows[c.token := s.rows[c.token].(usedAt := Some(c.now))],
          s.locks - {c.token},
          s.calls[call := Committed(c.token, c.read.user)],
          s.issues,
          if c.read.kind.EmailVerification? then SetVerified(s.people, c.read.user, Some(c.now)) else s.people,
          s.history + [Consumption(c.token, c.now, Live(s.people, c.read.user))])
      else s
    case Rollback(call) =>
      if call in s.calls && HasLock(s.calls[call])
      then s.(locks := s.locks - {s.calls[call].token}, calls := s.calls[call := Refused])
      else s
    case _ => s.(people := PeopleStep(s.people, a))
  }

  function Run(s: State, actions: seq<Action>): State
    decreases |actions|
  {
    if actions == [] then s else Run(Step(s, actions[0]), actions[1..])
  }

  lemma RunOfFour(s: State, a: Action, b: Action, c: Action, d: Action)
    ensures Run(s, [a, b, c, d]) == Step(Step(Step(Step(s, a), b), c), d)
  {
    assert [a, b, c, d][1..] == [b, c, d] && [b, c, d][1..] == [c, d] && [c, d][1..] == [d] && [d][1..] == [];
    var s1 := Step(s, a);
    var s2 := Step(s1, b);
    assert Run(s1, [b, c, d]) == Run(s2, [c, d]);
    assert Run(s2, [c, d]) == Run(Step(s2, c), [d]);
    assert Run(Step(s2, c), [d]) == Run(Step(Step(s2, c), d), []);
  }

  /** Issuing with nothing in between retires every unused token of the user and kind. */
  lemma IssueAlone(rows: Table, user: nat, kind: Kind, hash: string, lifetime: nat, now: int)
    requires !HashExists(rows, hash)
    ensures Step(Step(Step(Idle(rows), BeginIssue(0, user, kind, hash, lifetime, now)), Retire(0)), InsertToken(0)).rows
            == InvalidateActive(rows, user, kind, now) + [Token(user, kind, hash, now + lifetime, None)]
  {
    var i := Issuing(user, kind, hash, lifetime, now, AllUnused(rows, user, kind), false);
    var s1 := Idle(rows).(issues := map[0 := i]);
    var s2 := Idle(rows).(issues := map[0 := i.(locked := true)]);
    assert Step(Idle(rows), BeginIssue(0, user, kind, hash, lifetime, now)) == s1;
    RetireAlone(rows, i);
    IssuedRetiresAll(rows, i);
    hide AllUnused, InvalidateActive, HashExists, Issued;
    assert Step(s2, InsertToken(0)).rows == Issued(rows, i.(locked := true));
  }

  lemma RetireAlone(rows: Table, i: Issuing)
    requires i.seen == AllUnused(rows, i.user, i.kind) && !i.locked
    ensures Step(Idle(rows).(issues := map[0 := i]), Retire(0)) == Idle(rows).(issues := map[0 := i.(locked := true)])
  {
    assert StillUnused(rows, i) == i.seen;
  }

  lemma IssuedRetiresAll(rows: Table, i: Issuing)
    requires i.seen == AllUnused(rows, i.user, i.kind)
    ensures Issued(rows, i.(locked := true)) == InvalidateActive(rows, i.user, i.kind, i.now) + [Token(i.user, i.kind, i.hash, i.now + i.lifetime, None)]
  {}

  /** And then the new token is the only unused one. */
  lemma OnlyTheNewOneIsUnused(rows: Table, user: nat, kind: Kind, now: int, token: Token)
    ensures var after := InvalidateActive(rows, user, kind, now) + [token];
            forall i :: 0 <= i < |after| && Unused(after[i], user, kind) ==> i == |rows|
  {}

  /** The repository over one token table, as a caller sees it when nothing runs in between. */
  class EmailTokenRepository {
    var rows: Table

    /** Retire the active tokens and add the new one, in one transaction. */
    method CreateToken(user: nat, kind: Kind, hash: string, lifetime: nat, now: int)
      requires !HashExists(rows, hash)
      modifies this
      ensures rows == Step(Step(Step(Idle(old(rows)), BeginIssue(0, user, kind, hash, lifetime, now)), Retire(0)), InsertToken(0)).rows
      ensures forall i :: 0 <= i < |rows| && Unused(rows[i], user, kind) ==> i == |old(rows)|
      ensures |rows| == |old(rows)| + 1 && rows[|old(rows)|] == Token(user, kind, hash, now + lifetime, None)
      ensures forall i :: 0 <= i < |old(rows)| ==>
                rows[i] == if old(rows)[i].user == user && old(rows)[i].kind == kind && old(rows)[i].usedAt.None?
                           then old(rows)[i].(usedAt := Some(now)) else old(rows)[i]
    {
      IssueAlone(rows, user, kind, hash, lifetime, now);
      OnlyTheNewOneIsUnused(rows, user, kind, now, Token(user, kind, hash, now + lifetime, None));
      hide Step, InvalidateActive;
      rows := InvalidateActive(rows, user, kind, now);
      rows := rows + [Token(user, kind, hash, now + lifetime, None)];
    }

    /** Succeeds exactly on an unused, unexpired token, and then changes nothing but its mark. */
    method Consume(hash: string, kind: Kind, now: int) returns (user: Option<nat>)
      modifies this
      ensures var id := Find(old(rows), hash, kind);
              && |rows| == |old(rows)| && (user.Some? <==> id < |old(rows)| && Consumable(old(rows)[id], now))
              && (user.Some? <==> id < |old(rows)| && old(rows)[id].usedAt.None? && now < old(rows)[id].expiresAt)
              && (user.Some? ==> user.value == old(rows)[id].user && rows == old(rows)[id := old(rows)[id].(usedAt := Some(now))])
              && (user.None? ==> rows == old(rows))
      ensures rows == Run(Idle(old(rows)),
                          [Begin(0, hash, kind, now), SelectForUpdate(0), CheckAndWrite(0), Commit(0)]).rows
    {
      ghost var before := Idle(rows);
      RunOfFour(before, Begin(0, hash, kind, now), SelectForUpdate(0), CheckAndWrite(0), Commit(0));
      hide Find, Run;
      var id := Find(rows, hash, kind);
      if id == |rows| {
        return None;
      }
      var token := rows[id];
      if token.usedAt.Some? || !(token.expiresAt > now) {
        return None;
      }
      rows := rows[id := token.(usedAt := Some(now))];
      user := Some(token.user);
    }
  }

  // --- Invariant ---------------------------------------------------------------------------

  /** A transaction past its SELECT owns the row lock, and what it read is still the row. */
  ghost predicate CallIsCurrent(s: State, call: nat)
    requires call in s.calls
  {
    var c := s.calls[call];
    && (HasLock(c) ==>
          && c.token in s.locks && s.locks[c.token] == call
          && c.token < |s.rows| && s.rows[c.token] == c.read)
    && (c.Written? ==> Consumable(c.read, c.now))
  }

  /** A lock is held by a transaction that is using it. */
  ghost predicate LockIsUsed(s: State, token: nat)
    requires token in s.locks
  {
    s.locks[token] in s.calls && HasLock(s.calls[s.locks[token]]) && s.calls[s.locks[token]].token == token
  }

  /** The rows an issuing transaction has locked are unused, and nobody else's. */
  ghost predicate IssueIsCurrent(s: State, n: nat)
    requires n in s.issues
  {
    forall k: nat :: Retires(s.issues[n], k) ==>
      && k < |s.rows| && Unused(s.rows[k], s.issues[n].user, s.issues[n].kind) && k !in s.locks
      && forall m :: m in s.issues && m != n ==> !Retires(s.issues[m], k)
  }

  ghost predicate Issues(s: State) {
    forall n :: n in s.issues ==> IssueIsCurrent(s, n)
  }

  ghost predicate Locking(s: State) {
    && (forall call :: call in s.calls ==> CallIsCurrent(s, call))
    && (forall token :: token in s.locks ==> LockIsUsed(s, token))
  }

  /** Every consumption left its mark on its row, before expiry. */
  ghost predicate Recorded(s: State, c: Consumption) {
    c.token < |s.rows| && s.rows[c.token].usedAt == Some(c.now) && c.now < s.rows[c.token].expiresAt
  }

  ghost predicate HistoryRecorded(s: State) {
    forall k :: 0 <= k < |s.history| ==> Recorded(s, s.history[k])
  }

  ghost predicate ConsumedOnce(s: State) {
    forall k, l :: 0 <= k < l < |s.history| ==> s.history[k].token != s.history[l].token
  }

  ghost predicate OneUnused(rows: Table) {
    forall i, j :: 0 <= i < j < |rows| && Unused(rows[i], rows[j].user, rows[j].kind) ==> rows[j].usedAt.Some?
  }

  /** The `k`th consumption was of a verification token of this user, whose account was not deleted. */
  ghost predicate Verifies(s: State, k: nat, user: nat) {
    && k < |s.history| && s.history[k].token < |s.rows| && s.history[k].live
    && var t := s.rows[s.history[k].token]; t.kind.EmailVerification? && t.user == user
  }

  /** The account was marked at some time: by a token consumed while it was not deleted, or by an owner. */
  ghost predicate Marked(s: State, user: nat) {
    user in s.people.added || exists k :: Verifies(s, k, user)
  }

  /** An account is verified exactly when it was marked and no edit has overwritten the last mark. */
  ghost predicate Accounted(s: State, user: nat) {
    && (Verified(s.people, user) <==> Marked(s, user) && user !in s.people.overwritten)
    && (user in s.people.overwritten ==> Marked(s, user) && user in s.people.accounts)
    && (forall e :: e in s.people.edits && s.people.edits[e].user == user && s.people.edits[e].verifiedAt.Some? ==> Marked(s, user))
  }

  ghost predicate AllAccounted(s: State) {
    forall user :: Accounted(s, user)
  }

  ghost predicate Inv(s: State) {
    Locking(s) && Issues(s) && HistoryRecorded(s) && ConsumedOnce(s) && AllAccounted(s)
  }

  // --- Preservation --------------------------------------------------------------------------

  predicate IsIssueAction(a: Action) {
    a.BeginIssue? || a.Retire? || a.InsertToken? || a.AbortIssue?
  }

  /** What an issuing transaction changes: tokens in no consumer's hands, and its own progress. */
  lemma IssueStepRows(s: State, a: Action)
    requires IsIssueAction(a) && Issues(s)
    ensures var t := Step(s, a);
            && t.locks == s.locks && t.calls == s.calls && t.people == s.people && t.history == s.history
            && |s.rows| <= |t.rows|
            && forall k :: 0 <= k < |s.rows| ==>
                 t.rows[k] == s.rows[k] || (s.rows[k].usedAt.None? && k !in s.locks && t.rows[k] == s.rows[k].(usedAt := t.rows[k].usedAt))
  {
    if a.InsertToken? && a.issue in s.issues && s.issues[a.issue].locked {
      assert IssueIsCurrent(s, a.issue);
      assert forall k :: k in s.issues[a.issue].seen ==> Retires(s.issues[a.issue], k);
    }
  }

  lemma IssueKeepsLocking(s: State, a: Action)
    requires IsIssueAction(a) && Issues(s) && Locking(s) && HistoryRecorded(s)
    ensures Locking(Step(s, a)) && HistoryRecorded(Step(s, a))
  {
    IssueStepRows(s, a);
    var t := Step(s, a);
    hide Step, Issues;
    forall call | call in t.calls ensures CallIsCurrent(t, call) {
      assert CallIsCurrent(s, call);
    }
    forall token | token in t.locks ensures LockIsUsed(t, token) {
      assert LockIsUsed(s, token);
    }
    forall k | 0 <= k < |t.history| ensures Recorded(t, t.history[k]) {
      assert Recorded(s, s.history[k]);
    }
  }

  lemma IssueKeepsUsers(s: State, a: Action)
    requires IsIssueAction(a) && Issues(s) && HistoryRecorded(s) && AllAccounted(s)
    ensures AllAccounted(Step(s, a))
  {
    IssueStepRows(s, a);
    var t := Step(s, a);
    hide Step, Issues;
    forall user, k: nat ensures Verifies(t, k, user) <==> Verifies(s, k, user) {
      if k < |s.history| { assert Recorded(s, s.history[k]); }
    }
    hide Verifies;
    forall user ensures Accounted(t, user) { assert Accounted(s, user); }
  }

  lemma IssueKeepsIssues(s: State, a: Action, n: nat)
    requires IsIssueAction(a) && Issues(s) && n in Step(s, a).issues
    ensures IssueIsCurrent(Step(s, a), n)
  {
    var t := Step(s, a);
    if n in s.issues { assert IssueIsCurrent(s, n); }
    if a.InsertToken? && a.issue in s.issues { assert IssueIsCurrent(s, a.issue); }
    if a.Retire? && a.issue in s.issues && a.issue != n {
      forall k | Retires(t.issues[n], k) ensures !Retires(t.issues[a.issue], k) {
        assert Retires(s.issues[n], k);
      }
    }
  }

  lemma SelectKeepsLocking(s: State, call: nat)
    requires Locking(s)
    ensures Locking(Step(s, SelectForUpdate(call)))
  {
    hide Find, IsLocked;
    assert forall id :: !IsLocked(s, id) ==> id !in s.locks by { NotLocked(s); }
    var t := Step(s, SelectForUpdate(call));
    forall other | other in t.calls ensures CallIsCurrent(t, other) {
      if other != call { assert CallIsCurrent(s, other); }
    }
    forall token | token in t.locks ensures LockIsUsed(t, token) {
      if token in s.locks { assert LockIsUsed(s, token); }
    }
  }

  lemma NotLocked(s: State)
    ensures forall id :: !IsLocked(s, id) ==> id !in s.locks
    ensures forall id, n :: !IsLocked(s, id) && n in s.issues ==> !Retires(s.issues[n], id)
  {}

  predicate IsConsumeAction(a: Action) {
    a.Begin? || a.SelectForUpdate? || a.CheckAndWrite? || a.Rollback? || a.Commit?
  }

  /** A consuming transaction locks only what no issuing one has, and writes only what it has locked. */
  lemma ConsumeTouches(s: State, a: Action)
    requires IsConsumeAction(a) && Locking(s)
    ensures var t := Step(s, a);
            && t.issues == s.issues && |t.rows| == |s.rows|
            && (forall k :: k in t.locks && k !in s.locks ==> !IsLocked(s, k))
            && (forall k :: 0 <= k < |s.rows| && k !in s.locks ==> t.rows[k] == s.rows[k])
  {
    hide Find, IsLocked;
    if a.Commit? && a.call in s.calls { assert CallIsCurrent(s, a.call); }
  }

  lemma ConsumeKeepsIssues(s: State, a: Action, n: nat)
    requires IsConsumeAction(a) && Locking(s) && Issues(s)
    requires n in Step(s, a).issues
    ensures IssueIsCurrent(Step(s, a), n)
  {
    ConsumeTouches(s, a);
    NotLocked(s);
    hide Step, IsLocked, Locking;
    assert IssueIsCurrent(s, n);
  }

  lemma ReleaseKeepsLocking(s: State, call: nat)
    requires Locking(s) && call in s.calls && HasLock(s.calls[call])
    ensures Locking(s.(locks := s.locks - {s.calls[call].token}, calls := s.calls[call := Refused]))
  {
    var t := s.(locks := s.locks - {s.calls[call].token}, calls := s.calls[call := Refused]);
    assert CallIsCurrent(s, call);
    forall other | other in t.calls ensures CallIsCurrent(t, other) {
      if other != call { assert CallIsCurrent(s, other); }
    }
    forall token | token in t.locks ensures LockIsUsed(t, token) {
      assert LockIsUsed(s, token);
    }
  }

  lemma RollbackKeepsLocking(s: State, call: nat)
    requires Locking(s)
    ensures Locking(Step(s, Rollback(call)))
  {
    if call in s.calls && HasLock(s.calls[call]) { ReleaseKeepsLocking(s, call); }
  }

  lemma CheckKeepsLocking(s: State, call: nat)
    requires Locking(s)
    ensures Locking(Step(s, CheckAndWrite(call)))
  {
    if call !in s.calls || !s.calls[call].Holding? {
    } else if !Consumable(s.calls[call].read, s.calls[call].now) {
      ReleaseKeepsLocking(s, call);
    } else {
      var t := Step(s, CheckAndWrite(call));
      assert CallIsCurrent(s, call);
      forall other | other in t.calls ensures CallIsCurrent(t, other) {
        if other != call { assert CallIsCurrent(s, other); }
      }
      forall token | token in t.locks ensures LockIsUsed(t, token) {
        assert LockIsUsed(s, token);
      }
    }
  }

  lemma BeginKeepsLocking(s: State, a: Action)
    requires a.Begin? && Locking(s)
    ensures Locking(Step(s, a))
  {
    var t := Step(s, a);
    forall other | other in t.calls ensures CallIsCurrent(t, other) {
      if other in s.calls { assert CallIsCurrent(s, other); }
    }
    forall token | token in t.locks ensures LockIsUsed(t, token) {
      assert LockIsUsed(s, token);
    }
  }

  lemma SameRowsKeepInv(s: State, t: State)
    requires Inv(s) && t.rows == s.rows && t.history == s.history
    ensures HistoryRecorded(t) && ConsumedOnce(t)
    ensures t.people == s.people ==> AllAccounted(t)
  {
    assert forall k :: 0 <= k < |s.history| ==> Recorded(s, s.history[k]) == Recorded(t, s.history[k]);
    assert forall user, k: nat :: Verifies(t, k, user) <==> Verifies(s, k, user);
    hide Verifies;
    if t.people == s.people {
      forall user ensures Accounted(t, user) { assert Accounted(s, user); }
    }
  }

  /** Statements before the commit move only locks and the calling transaction. */
  lemma LocalStepKeepsInv(s: State, a: Action)
    requires (a.Begin? || a.SelectForUpdate? || a.CheckAndWrite? || a.Rollback?) && Inv(s)
    ensures Inv(Step(s, a))
  {
    SameRowsKeepInv(s, Step(s, a));
    forall n | n in Step(s, a).issues ensures IssueIsCurrent(Step(s, a), n) { ConsumeKeepsIssues(s, a, n); }
    hide HistoryRecorded, ConsumedOnce, AllAccounted, Locking, Step, IssueIsCurrent;
    match a
    case Begin(_, _, _, _) => BeginKeepsLocking(s, a);
    case SelectForUpdate(call) => SelectKeepsLocking(s, call);
    case CheckAndWrite(call) => CheckKeepsLocking(s, call);
    case Rollback(call) => RollbackKeepsLocking(s, call);
  }

  lemma CommitKeepsLocking(s: State, a: Action)
    requires a.Commit? && Locking(s)
    ensures Locking(Step(s, a))
  {
    var t := Step(s, a);
    if t != s {
      assert CallIsCurrent(s, a.call);
      forall call | call in t.calls ensures CallIsCurrent(t, call) {
        if call != a.call { assert CallIsCurrent(s, call); }
      }
      forall token | token in t.locks ensures LockIsUsed(t, token) {
        assert LockIsUsed(s, token);
      }
    }
  }

  lemma CommitKeepsHistory(s: State, a: Action)
    requires a.Commit? && Locking(s) && HistoryRecorded(s) && ConsumedOnce(s)
    ensures var t := Step(s, a); HistoryRecorded(t) && ConsumedOnce(t)
  {
    var t := Step(s, a);
    if t != s {
      assert CallIsCurrent(s, a.call);
      forall k | 0 <= k < |s.history| ensures Recorded(t, s.history[k]) && s.history[k].token != s.calls[a.call].token {
        assert Recorded(s, s.history[k]);
      }
      assert Recorded(t, t.history[|s.history|]);
    }
  }

  /** A write of the column on a live account: a mark is stored, and a blank overwrites one that was there. */
  lemma SetVerifiedMeans(p: People, user: nat, verifiedAt: Option<int>, other: nat)
    ensures var q := SetVerified(p, user, verifiedAt);
            && q.edits == p.edits && q.added == p.added && q.accounts.Keys == p.accounts.Keys
            && (Live(p, user) && other == user ==>
                  && (Verified(q, other) <==> verifiedAt.Some?)
                  && (other in q.overwritten <==> verifiedAt.None? && (Verified(p, user) || user in p.overwritten)))
            && (!Live(p, user) || other != user ==>
                  (Verified(q, other) <==> Verified(p, other)) && (other in q.overwritten <==> other in p.overwritten))
  {}

  lemma CommitKeepsUsers(s: State, a: Action)
    requires a.Commit? && Locking(s) && AllAccounted(s)
    ensures AllAccounted(Step(s, a))
  {
    var t := Step(s, a);
    if t != s {
      var c := s.calls[a.call];
      assert CallIsCurrent(s, a.call);
      var last := |s.history|;
      forall user, k: nat ensures Verifies(t, k, user) <==>
        Verifies(s, k, user) || (k == last && c.read.kind.EmailVerification? && c.read.user == user && Live(s.people, user)) {}
      var marks := c.read.kind.EmailVerification?;
      assert t.people == if marks then SetVerified(s.people, c.read.user, Some(c.now)) else s.people;
      hide Verifies, Step, CallIsCurrent;
      forall user ensures Accounted(t, user) {
        assert Accounted(s, user);
        SetVerifiedMeans(s.people, c.read.user, Some(c.now), user);
        var now := marks && c.read.user == user && Live(s.people, user);
        assert Marked(t, user) <==> Marked(s, user) || now by {
          if now { assert Verifies(t, last, user); }
          if Marked(s, user) && user !in s.people.added {
            var k :| Verifies(s, k, user);
            assert Verifies(t, k, user);
          }
        }
        hide SetVerified, Marked, Live, Verified;
      }
    }
  }

  predicate IsPeopleAction(a: Action) {
    a.Register? || a.OwnerAdds? || a.DeleteUser? || a.ReadProfile? || a.WriteProfile?
  }

  /** Writers of accounts leave tokens and history alone, and mark exactly the accounts they add. */
  lemma PeopleStepMarks(s: State, a: Action, user: nat)
    requires IsPeopleAction(a)
    ensures var t := Step(s, a);
            && t == s.(people := PeopleStep(s.people, a))
            && (Marked(t, user) <==> Marked(s, user) || user in t.people.added)
            && (user in s.people.added ==> user in t.people.added)
  {
    var t := Step(s, a);
    assert t == s.(people := PeopleStep(s.people, a));
    assert forall k: nat :: Verifies(t, k, user) <==> Verifies(s, k, user);
    hide Verifies, Step;
  }

  lemma PeopleStepKeepsAccounted(s: State, a: Action, user: nat)
    requires IsPeopleAction(a) && Accounted(s, user)
    ensures Accounted(Step(s, a), user)
  {
    PeopleStepMarks(s, a, user);
    hide Step, Marked;
    if a.WriteProfile? && a.edit in s.people.edits {
      SetVerifiedMeans(s.people, s.people.edits[a.edit].user, s.people.edits[a.edit].verifiedAt, user);
    }
    if a.OwnerAdds? {
      SetVerifiedMeans(s.people, a.user, Some(a.now), user);
    }
    hide SetVerified;
  }

  lemma PeopleStepKeepsInv(s: State, a: Action)
    requires IsPeopleAction(a) && Inv(s)
    ensures Inv(Step(s, a))
  {
    var t := Step(s, a);
    assert t == s.(people := PeopleStep(s.people, a));
    SameRowsKeepInv(s, t);
    hide Step, PeopleStep, Accounted, HistoryRecorded, ConsumedOnce;
    forall user ensures Accounted(t, user) {
      assert Accounted(s, user);
      PeopleStepKeepsAccounted(s, a, user);
    }
    forall call | call in t.calls ensures CallIsCurrent(t, call) { assert CallIsCurrent(s, call); }
    forall token | token in t.locks ensures LockIsUsed(t, token) { assert LockIsUsed(s, token); }
    forall n | n in t.issues ensures IssueIsCurrent(t, n) { assert IssueIsCurrent(s, n); }
  }

  lemma StepKeepsInv(s: State, a: Action)
    requires Inv(s)
    ensures Inv(Step(s, a))
  {
    if IsIssueAction(a) {
      IssueKeepsLocking(s, a);
      IssueKeepsUsers(s, a);
      IssueStepRows(s, a);
      forall n | n in Step(s, a).issues ensures IssueIsCurrent(Step(s, a), n) { IssueKeepsIssues(s, a, n); }
      hide Locking, AllAccounted, HistoryRecorded, Step, IssueIsCurrent;
      assert ConsumedOnce(Step(s, a));
    } else if a.Commit? {
      CommitKeepsLocking(s, a);
      CommitKeepsHistory(s, a);
      CommitKeepsUsers(s, a);
      forall n | n in Step(s, a).issues ensures IssueIsCurrent(Step(s, a), n) { ConsumeKeepsIssues(s, a, n); }
      hide Locking, AllAccounted, HistoryRecorded, Step, IssueIsCurrent, ConsumedOnce;
    } else if IsPeopleAction(a) {
      PeopleStepKeepsInv(s, a);
    } else {
      LocalStepKeepsInv(s, a);
    }
  }

  lemma {:induction false} RunKeepsInv(s: State, actions: seq<Action>)
    requires Inv(s)
    ensures Inv(Run(s, actions))
    decreases |actions|
  {
    if actions != [] {
      StepKeepsInv(s, actions[0]);
      RunKeepsInv(Step(s, actions[0]), actions[1..]);
    }
  }

  // --- Main results ---------------------------------------------------------------------------

  /** In every interleaving, a token is consumed at most once, and only before it expires. */
  lemma EveryTokenIsConsumedAtMostOnce(actions: seq<Action>)
    ensures var s := Run(START, actions);
            && (forall k, l :: 0 <= k < l < |s.history| ==> s.history[k].token != s.history[l].token)
            && (forall k :: 0 <= k < |s.history| ==> Recorded(s, s.history[k]))
  {
    RunKeepsInv(START, actions);
  }

  // --- Unused tokens --------------------------------------------------------------------------

  /** An unused token of the same user and kind was committed after this transaction's UPDATE looked for them. */
  predicate Misses(s: State, a: Action) {
    && a.InsertToken? && a.issue in s.issues && s.issues[a.issue].locked && !HashExists(s.rows, s.issues[a.issue].hash)
    && exists k :: 0 <= k < |s.rows| && k !in s.issues[a.issue].seen && Unused(s.rows[k], s.issues[a.issue].user, s.issues[a.issue].kind)
  }

  /** A step leaves a user with two unused tokens of a kind if and only if it issues one and has missed another. */
  lemma StepKeepsOneUnused(s: State, a: Action)
    requires Inv(s) && OneUnused(s.rows)
    ensures OneUnused(Step(s, a).rows) <==> !Misses(s, a)
  {
    if a.InsertToken? && a.issue in s.issues && s.issues[a.issue].locked && !HashExists(s.rows, s.issues[a.issue].hash) {
      var i, t := s.issues[a.issue], Step(s, a);
      assert IssueIsCurrent(s, a.issue);
      assert t.rows == Issued(s.rows, i);
      hide Inv, Step, HashExists;
      if k :| 0 <= k < |s.rows| && k !in i.seen && Unused(s.rows[k], i.user, i.kind) {
        assert Unused(t.rows[k], i.user, i.kind) && t.rows[|s.rows|].usedAt.None?;
      }
    } else {
      OtherStepsAddNoToken(s, a);
      hide Inv, Step;
    }
  }

  /** A transaction that nothing interrupts misses nothing, whatever else is in flight. */
  lemma SerialIssueMissesNothing(s: State, n: nat, user: nat, kind: Kind, hash: string, lifetime: nat, now: int)
    requires n !in s.issues
    ensures !Misses(Step(Step(s, BeginIssue(n, user, kind, hash, lifetime, now)), Retire(n)), InsertToken(n))
  {
    var t := Step(s, BeginIssue(n, user, kind, hash, lifetime, now));
    hide IsLocked, HashExists;
    assert StillUnused(t.rows, t.issues[n]) == AllUnused(s.rows, user, kind);
  }

  lemma OtherStepsAddNoToken(s: State, a: Action)
    requires Inv(s) && (a.InsertToken? ==> Step(s, a) == s)
    ensures |Step(s, a).rows| == |s.rows|
    ensures forall k :: 0 <= k < |s.rows| ==>
              Step(s, a).rows[k] == s.rows[k].(usedAt := Step(s, a).rows[k].usedAt) && (s.rows[k].usedAt.Some? ==> Step(s, a).rows[k].usedAt.Some?)
  {
    hide Find, IsLocked;
  }

  ghost predicate NeverMisses(s: State, actions: seq<Action>)
    decreases |actions|
  {
    actions != [] ==> !Misses(s, actions[0]) && NeverMisses(Step(s, actions[0]), actions[1..])
  }

  lemma {:induction false} RunKeepsOneUnused(s: State, actions: seq<Action>)
    requires Inv(s) && OneUnused(s.rows) && NeverMisses(s, actions)
    ensures OneUnused(Run(s, actions).rows)
    decreases |actions|
  {
    if actions != [] {
      hide Inv, Step, OneUnused, Misses;
      StepKeepsInv(s, actions[0]);
      StepKeepsOneUnused(s, actions[0]);
      RunKeepsOneUnused(Step(s, actions[0]), actions[1..]);
    }
  }

  /** In every run in which no issuing transaction misses a token, a user has at most one unused token of a kind. */
  lemma AtMostOneUnusedToken(actions: seq<Action>, i: nat, j: nat)
    requires NeverMisses(START, actions)
    requires var rows := Run(START, actions).rows;
             && i < |rows| && j < |rows| && rows[i].usedAt.None? && rows[j].usedAt.None?
             && rows[i].user == rows[j].user && rows[i].kind == rows[j].kind
    ensures i == j
  {
    RunKeepsOneUnused(START, actions);
  }

  // --- Verified accounts ----------------------------------------------------------------------

  /**
   In every interleaving, an account is verified if and only if a verification token of it was
   consumed while it was not deleted or an owner added it, and no profile edit has overwritten that.
   */
  lemma VerifiedExactlyByMarks(actions: seq<Action>, user: nat)
    ensures var s := Run(START, actions);
            Verified(s.people, user) <==>
              (user in s.people.added || exists k :: Verifies(s, k, user)) && user !in s.people.overwritten
  {
    RunKeepsInv(START, actions);
    assert Accounted(Run(START, actions), user);
  }

  /** A profile edit that read the account before it was verified. */
  predicate IsStaleEdit(p: People, a: Action, user: nat) {
    && a.WriteProfile? && a.edit in p.edits && p.edits[a.edit].user == user && p.edits[a.edit].verifiedAt.None?
    && Live(p, user)
  }

  /** A step takes a verification back if and only if it writes such an edit over it. */
  lemma OnlyStaleEditsUnverify(s: State, a: Action, user: nat)
    requires Verified(s.people, user)
    ensures !Verified(Step(s, a).people, user) <==> IsStaleEdit(s.people, a, user)
  {
    hide Find, InvalidateActive;
    if a.Commit? && a.call in s.calls && s.calls[a.call].Written? {
      SetVerifiedMeans(s.people, s.calls[a.call].read.user, Some(s.calls[a.call].now), user);
    }
    if a.WriteProfile? && a.edit in s.people.edits {
      SetVerifiedMeans(s.people, s.people.edits[a.edit].user, s.people.edits[a.edit].verifiedAt, user);
    }
    if a.OwnerAdds? {
      SetVerifiedMeans(s.people, a.user, Some(a.now), user);
    }
    hide SetVerified;
  }

  ghost predicate NoStaleEdit(s: State, actions: seq<Action>, user: nat)
    decreases |actions|
  {
    actions != [] ==> !(IsStaleEdit(s.people, actions[0], user) && Verified(s.people, user)) && NoStaleEdit(Step(s, actions[0]), actions[1..], user)
  }

  lemma {:induction false} NothingOverwritten(s: State, actions: seq<Action>, user: nat)
    requires NoStaleEdit(s, actions, user) && user !in s.people.overwritten
    ensures user !in Run(s, actions).people.overwritten
    decreases |actions|
  {
    if actions != [] {
      OverwrittenByStaleEdit(s, actions[0], user);
      hide Step, IsStaleEdit, Verified;
      NothingOverwritten(Step(s, actions[0]), actions[1..], user);
    }
  }

  lemma OverwrittenByStaleEdit(s: State, a: Action, user: nat)
    requires user !in s.people.overwritten
    ensures user in Step(s, a).people.overwritten <==> IsStaleEdit(s.people, a, user) && Verified(s.people, user)
  {
    hide Find, InvalidateActive;
    if a.Commit? && a.call in s.calls && s.calls[a.call].Written? {
      SetVerifiedMeans(s.people, s.calls[a.call].read.user, Some(s.calls[a.call].now), user);
    }
    if a.WriteProfile? && a.edit in s.people.edits {
      SetVerifiedMeans(s.people, s.people.edits[a.edit].user, s.people.edits[a.edit].verifiedAt, user);
    }
    if a.OwnerAdds? {
      SetVerifiedMeans(s.people, a.user, Some(a.now), user);
    }
    hide SetVerified;
  }

  /** So in every run without a stale edit of the account, it is verified if and only if it was marked. */
  lemma VerifiedExactlyByConsumption(actions: seq<Action>, user: nat)
    requires NoStaleEdit(START, actions, user)
    ensures var s := Run(START, actions);
            Verified(s.people, user) <==> user in s.people.added || exists k :: Verifies(s, k, user)
  {
    VerifiedExactlyByMarks(actions, user);
    NothingOverwritten(START, actions, user);
  }

  /** A token issued, a profile read and a consumption begun. */
  function HalfVerified(hash: string): State {
    State([Token(1, EmailVerification, hash, 60, None)], map[], map[0 := Started(hash, EmailVerification, 5)], map[],
          People(map[1 := Account(None, false)], map[9 := Edit(1, None)], {}, {}), [])
  }

  function Registered(hash: string): State {
    State([Token(1, EmailVerification, hash, 60, None)], map[], map[], map[], People(map[1 := Account(None, false)], map[], {}, {}), [])
  }

  lemma RegisteredIsReached(hash: string)
    ensures Run(START, [Register(1), BeginIssue(3, 1, EmailVerification, hash, 60, 0), Retire(3), InsertToken(3)]) == Registered(hash)
  {
    var issue := BeginIssue(3, 1, EmailVerification, hash, 60, 0);
    RunOfFour(START, Register(1), issue, Retire(3), InsertToken(3));
    hide Run;
    var s1 := Step(START, Register(1));
    var s2 := Step(s1, issue);
    assert AllUnused([], 1, EmailVerification) == {};
    assert s2 == s1.(issues := map[3 := Issuing(1, EmailVerification, hash, 60, 0, {}, false)]);
    var s3 := Step(s2, Retire(3));
    assert StillUnused([], s2.issues[3]) == {};
    assert s3 == s1.(issues := map[3 := Issuing(1, EmailVerification, hash, 60, 0, {}, true)]);
    assert Issued([], s3.issues[3]) == [Token(1, EmailVerification, hash, 60, None)];
  }

  lemma HalfVerifiedIsReached(hash: string)
    ensures Run(Registered(hash), [ReadProfile(9, 1), Begin(0, hash, EmailVerification, 5)]) == HalfVerified(hash)
  {
    RunOfTwo(Registered(hash), ReadProfile(9, 1), Begin(0, hash, EmailVerification, 5));
    hide Run;
  }

  lemma RunOfTwo(s: State, a: Action, b: Action)
    ensures Run(s, [a, b]) == Step(Step(s, a), b)
  {
    hide Step;
    assert [a, b][1..] == [b] && [b][1..] == [];
    assert Run(Step(s, a), [b]) == Run(Step(Step(s, a), b), []);
  }

  /** A consumed verification that a profile edit in flight takes back. */
  lemma VerificationIsLostToAProfileEdit(hash: string)
    ensures var first := [Register(1), BeginIssue(3, 1, EmailVerification, hash, 60, 0), Retire(3), InsertToken(3)];
            var second := [ReadProfile(9, 1), Begin(0, hash, EmailVerification, 5)];
            var third := [SelectForUpdate(0), CheckAndWrite(0), Commit(0), WriteProfile(9)];
            var s := Run(Run(Run(START, first), second), third);
            Verifies(s, 0, 1) && !Verified(s.people, 1)
  {
    hide *;
    RegisteredIsReached(hash);
    HalfVerifiedIsReached(hash);
    RunOfFour(HalfVerified(hash), SelectForUpdate(0), CheckAndWrite(0), Commit(0), WriteProfile(9));
    HalfVerifiedIsConsumed(hash);
    EditIsWritten(hash);
  }

  function ConsumedOnTheWay(hash: string): State {
    State([Token(1, EmailVerification, hash, 60, Some(5))], map[], map[0 := Committed(0, 1)], map[],
          People(map[1 := Account(Some(5), false)], map[9 := Edit(1, None)], {}, {}), [Consumption(0, 5, true)])
  }

  lemma HalfVerifiedIsConsumed(hash: string)
    ensures Step(Step(Step(HalfVerified(hash), SelectForUpdate(0)), CheckAndWrite(0)), Commit(0)) == ConsumedOnTheWay(hash)
  {
    var s4 := HalfVerified(hash);
    var token := Token(1, EmailVerification, hash, 60, None);
    assert Find(s4.rows, hash, EmailVerification) == 0;
    assert !IsLocked(s4, 0);
    hide Find;
    var s5 := Step(s4, SelectForUpdate(0));
    assert s5 == s4.(locks := map[0 := 0], calls := map[0 := Holding(0, token, 5)]);
    var s6 := Step(s5, CheckAndWrite(0));
    assert s6 == s5.(calls := map[0 := Written(0, token, 5)]);
  }

  lemma EditIsWritten(hash: string)
    ensures var s := Step(ConsumedOnTheWay(hash), WriteProfile(9)); Verifies(s, 0, 1) && !Verified(s.people, 1)
  {}

  /** Two transactions that both look before either inserts leave two unused tokens. */
  lemma ConcurrentIssuesLeaveTwo(user: nat, kind: Kind, hash: string, other: string)
    requires hash != other
    ensures var first := [BeginIssue(1, user, kind, hash, 60, 0), BeginIssue(2, user, kind, other, 60, 0), Retire(1), Retire(2)];
            var s := Run(Run(START, first), [InsertToken(1), InsertToken(2)]);
            |s.rows| == 2 && Unused(s.rows[0], user, kind) && Unused(s.rows[1], user, kind)
  {
    var a, b := BeginIssue(1, user, kind, hash, 60, 0), BeginIssue(2, user, kind, other, 60, 0);
    RunOfFour(START, a, b, Retire(1), Retire(2));
    var s2 := Step(Step(START, a), b);
    assert s2.issues[1] == Issuing(user, kind, hash, 60, 0, {}, false) && s2.issues[2] == Issuing(user, kind, other, 60, 0, {}, false);
    var s4 := Step(Step(s2, Retire(1)), Retire(2));
    assert s4.issues[1] == Issuing(user, kind, hash, 60, 0, {}, true) && s4.issues[2] == Issuing(user, kind, other, 60, 0, {}, true);
    RunOfTwo(s4, InsertToken(1), InsertToken(2));
    hide Run;
    var s5 := Step(s4, InsertToken(1));
    assert s5.rows == [Token(user, kind, hash, 60, None)];
  }
}
