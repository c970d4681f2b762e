/**
 Refresh token renewal under concurrency.

 A renewal is three separate database round trips: validate the presented token, revoke it
 with a guarded update whose row count is checked, insert its successor. Any number of
 renewals, sign-ins, logouts and revoke-all calls interleave at those round trips.
 */
module RefreshTokens {
  import opened Common

  /** Seven days, in seconds. */
  const LIFETIME := 604800

  /**
   A row of the token table; its id is its position, so every insert gets a fresh id.
   `parent` is a history variable, not a column: the token whose renewal inserted the row.
   */
  datatype Token = Token(user: nat, expiresAt: int, revokedAt: Option<int>, revokedBy: Option<nat>, parent: Option<nat>)

  type Table = seq<Token>

  // --- The statements --------------------------------------------------------------------

  function Insert(rows: Table, user: nat, parent: Option<nat>, now: int): Table {
    rows + [Token(user, now + LIFETIME, None, None, parent)]
  }

  predicate Revocable(rows: Table, id: nat) {
    id < |rows| && rows[id].revokedAt.None?
  }

  /** UPDATE ... WHERE id = id AND revoked_at IS NULL. */
  function RevokeOne(rows: Table, id: nat, actor: nat, now: int): Table {
    if Revocable(rows, id) then rows[id := rows[id].(revokedAt := Some(now), revokedBy := Some(actor))] else rows
  }

  /** UPDATE ... WHERE user_id = user AND revoked_at IS NULL. */
  function RevokeUser(rows: Table, user: nat, now: int): (after: Table)
    ensures |after| == |rows|
    ensures forall i :: 0 <= i < |rows| ==>
              after[i] == if rows[i].user == user && rows[i].revokedAt.None?
                          then rows[i].(revokedAt := Some(now), revokedBy := Some(user)) else rows[i]
  {
    seq(|rows|, i requires 0 <= i < |rows| =>
      if rows[i].user == user && rows[i].revokedAt.None?
      then rows[i].(revokedAt := Some(now), revokedBy := Some(user)) else rows[i])
  }

  datatype InvalidToken = NotFound | AlreadyRevoked | Expired | NotStored

  function Lookup(rows: Table, id: nat, now: int): Outcome<nat, InvalidToken> {
    if id >= |rows| then Err(NotFound)
    else if rows[id].revokedAt.Some? then Err(AlreadyRevoked)
    else if now >= rows[id].expiresAt then Err(Expired)
    else Ok(rows[id].user)
  }

  /** The token service over its table. */
  class RefreshTokenService {
    var rows: Table

    method Create(user: nat, parent: Option<nat>, now: int) returns (id: nat)
      modifies this
      ensures rows == Insert(old(rows), user, parent, now) && id == |old(rows)|
      ensures rows == old(rows) + [Token(user, now + 604800, None, None, parent)]
      ensures Lookup(rows, id, now) == Ok(user)
    {
      id := |rows|;
      rows := rows + [Token(user, now + LIFETIME, None, None, parent)];
    }

    method Validate(id: nat, now: int) returns (user: Outcome<nat, InvalidToken>)
      ensures user == Lookup(rows, id, now)
      ensures user.Ok? <==> Revocable(rows, id) && now < rows[id].expiresAt
      ensures user.Ok? ==> user.value == rows[id].user
      ensures id >= |rows| ==> user == Err(NotFound)
      ensures id < |rows| && rows[id].revokedAt.Some? ==> user == Err(AlreadyRevoked)
      ensures id < |rows| && rows[id].revokedAt.None? && rows[id].expiresAt <= now ==> user == Err(Expired)
    {
      if id >= |rows| {
        return Err(NotFound);
      }
      var token := rows[id];
      if token.revokedAt.Some? {
        return Err(AlreadyRevoked);
      }
      if !(now < token.expiresAt && token.revokedAt.None?) {
        return Err(Expired);
      }
      return Ok(token.user);
    }

    /** Reports failure exactly when no row was changed. */
    method Revoke(id: nat, actor: nat, now: int, executes: bool) returns (ok: bool)
      modifies this
      ensures rows == if executes then RevokeOne(old(rows), id, actor, now) else old(rows)
      ensures ok <==> rows != old(rows)
      ensures ok ==> id < |old(rows)| && rows == old(rows)[id := old(rows)[id].(revokedAt := Some(now), revokedBy := Some(actor))]
      ensures ok <==> executes && id < |old(rows)| && old(rows)[id].revokedAt.None?
    {
      if !executes {
        return false;
      }
      var rowsAffected := 0;
      if id < |rows| && rows[id].revokedAt.None? {
        rows := rows[id := rows[id].(revokedAt := Some(now), revokedBy := Some(actor))];
        rowsAffected := 1;
        assert rows[id].revokedAt.Some?;
      }
      ok := rowsAffected != 0;
    }

    method RevokeAllUserTokens(user: nat, now: int)
      modifies this
      ensures rows == RevokeUser(old(rows), user, now)
      ensures |rows| == |old(rows)| && forall i :: 0 <= i < |rows| && rows[i].user == user ==> !Revocable(rows, i)
      ensures forall i :: 0 <= i < |rows| && (old(rows)[i].user != user || !Revocable(old(rows), i)) ==> rows[i] == old(rows)[i]
      ensures forall i :: 0 <= i < |rows| && old(rows)[i].user == user && Revocable(old(rows), i) ==>
                rows[i] == old(rows)[i].(revokedAt := Some(now), revokedBy := Some(user))
    {
      rows := RevokeUser(rows, user, now);
    }

    /** A whole renewal with nothing in between; `revokes` and `creates` say whether its two writes execute. */
    method Refresh(id: nat, now: int, revokes: bool, creates: bool) returns (renewed: Outcome<nat, InvalidToken>)
      modifies this
      ensures renewed.Ok? <==> Lookup(old(rows), id, now).Ok? && revokes && creates
      ensures renewed.Ok? ==>
                && rows == Run(State(old(rows), map[]), [BeginRefresh(0, id, now), RevokeOld(0, now), IssueNew(0, now)]).rows
                && Lookup(rows, renewed.value, now) == Lookup(old(rows), id, now) && !Revocable(rows, id)
      ensures renewed.Err? ==>
                rows == if Lookup(old(rows), id, now).Ok? && revokes then RevokeOne(old(rows), id, old(rows)[id].user, now) else old(rows)
    {
      ghost var before := State(rows, map[]);
      RunOfThree(before, BeginRefresh(0, id, now), RevokeOld(0, now), IssueNew(0, now));
      var user := Validate(id, now);
      if user.Err? {
        return Err(user.error);
      }
      var revoked := Revoke(id, user.value, now, revokes);
      if !revoked {
        return Err(NotStored);
      }
      if !creates {
        return Err(NotStored);
      }
      var successor := Create(user.value, Some(id), now);
      return Ok(successor);
    }
  }

  // --- Interleaved calls -------------------------------------------------------------------

  /** How far a renewal call has got. */
  datatype Renewal = Validated(token: nat, user: nat) | Revoked(token: nat, user: nat) | Finished

  datatype State = State(rows: Table, calls: map<nat, Renewal>)

  /** One round trip of some call; `call` names a renewal in flight. */
  datatype Action =
    | SignIn(user: nat, now: int)
    | BeginRefresh(call: nat, token: nat, now: int)
    | RevokeOld(call: nat, now: int)
    | IssueNew(call: nat, now: int)
    | Fail(call: nat)
    | Logout(token: nat, actor: nat, now: int)
    | RevokeAll(user: nat, now: int)

  /** One atomic step; an action that is not enabled leaves the state unchanged. */
  function Step(s: State, a: Action): State {
    match a
    case SignIn(user, now) => s.(rows := Insert(s.rows, user, None, now))
    case BeginRefresh(call, token, now) =>
      if call !in s.calls && Lookup(s.rows, token, now).Ok?
      then s.(calls := s.calls[call := Validated(token, s.rows[token].user)]) else s
    case RevokeOld(call, now) =>
      if call in s.calls && s.calls[call].Validated? then
        var c := s.calls[call];
        if Revocable(s.rows, c.token)
        then State(RevokeOne(s.rows, c.token, c.user, now), s.calls[call := Revoked(c.token, c.user)])
        else s.(calls := s.calls[call := Finished])
      else s
    case IssueNew(call, now) =>
      if call in s.calls && s.calls[call].Revoked? then
        var c := s.calls[call];
        State(Insert(s.rows, c.user, Some(c.token), now), s.calls[call := Finished])
      else s
    case Fail(call) => if call in s.calls then s.(calls := s.calls[call := Finished]) else s
    case Logout(token, actor, now) => s.(rows := RevokeOne(s.rows, token, actor, now))
    case RevokeAll(user, now) => s.(rows := RevokeUser(s.rows, user, now))
  }

  function Run(s: State, actions: seq<Action>): State
    decreases |actions|
  {
    if actions == [] then s else Run(Step(s, actions[0]), actions[1..])
  }

  lemma RunOfThree(s: State, a: Action, b: Action, c: Action)
    ensures Run(s, [a, b, c]) == Step(Step(Step(s, a), b), c)
  {
    assert [a, b, c][1..] == [b, c] && [b, c][1..] == [c] && [c][1..] == [];
    assert Run(Step(s, a), [b, c]) == Run(Step(Step(s, a), b), [c]);
    assert Run(Step(Step(s, a), b), [c]) == Run(Step(Step(Step(s, a), b), c), []);
  }

  const START := State([], map[])

  // --- Invariant ---------------------------------------------------------------------------

  /** A successor comes after its parent, belongs to the same user, and its parent is revoked. */
  ghost predicate ParentsRevoked(rows: Table) {
    forall i :: 0 <= i < |rows| && rows[i].parent.Some? ==>
      var p := rows[i].parent.value;
      p < i && rows[p].revokedAt.Some? && rows[p].user == rows[i].user
  }

  /** No token has two successors. */
  ghost predicate SingleSuccessor(rows: Table) {
    forall i, j :: 0 <= i < j < |rows| && rows[i].parent.Some? ==> rows[i].parent != rows[j].parent
  }

  /** A call between its revoke and its insert owns the right to the only successor. */
  ghost predicate CallOwnsToken(s: State, call: nat)
    requires call in s.calls
  {
    match s.calls[call]
    case Validated(t, user) => t < |s.rows| && s.rows[t].user == user
    case Revoked(t, user) =>
      && t < |s.rows| && s.rows[t].user == user && s.rows[t].revokedAt.Some?
      && (forall i :: 0 <= i < |s.rows| ==> s.rows[i].parent != Some(t))
      && (forall other :: other in s.calls && other != call && s.calls[other].Revoked? ==> s.calls[other].token != t)
    case Finished => true
  }

  ghost predicate Inv(s: State) {
    && ParentsRevoked(s.rows)
    && SingleSuccessor(s.rows)
    && (forall call :: call in s.calls ==> CallOwnsToken(s, call))
  }

  /** Rows change only by gaining a revocation, once. */
  ghost predicate Extends(before: Table, after: Table) {
    && |before| <= |after|
    && forall i :: 0 <= i < |before| ==>
         && after[i].user == before[i].user && after[i].expiresAt == before[i].expiresAt
         && after[i].parent == before[i].parent
         && (before[i].revokedAt.Some? ==> after[i] == before[i])
  }

  lemma RevokeKeepsInv(s: State, rows: Table)
    requires Inv(s) && |rows| == |s.rows| && Extends(s.rows, rows)
    ensures Inv(s.(rows := rows))
  {
    var t := s.(rows := rows);
    forall call | call in t.calls ensures CallOwnsToken(t, call) {
      assert CallOwnsToken(s, call);
    }
  }

  lemma InsertKeepsRows(s: State, user: nat, now: int)
    requires Inv(s)
    ensures Inv(s.(rows := Insert(s.rows, user, None, now)))
  {
    var t := s.(rows := Insert(s.rows, user, None, now));
    forall call | call in t.calls ensures CallOwnsToken(t, call) {
      assert CallOwnsToken(s, call);
    }
  }

  lemma RevokeOldKeepsInv(s: State, call: nat, now: int)
    requires Inv(s)
    ensures Inv(Step(s, RevokeOld(call, now)))
  {
    if call in s.calls && s.calls[call].Validated? {
      var c := s.calls[call];
      assert CallOwnsToken(s, call);
      var t := Step(s, RevokeOld(call, now));
      forall other | other in t.calls ensures CallOwnsToken(t, other) {
        if other != call { assert CallOwnsToken(s, other); }
      }
    }
  }

  lemma IssueNewKeepsInv(s: State, call: nat, now: int)
    requires Inv(s)
    ensures Inv(Step(s, IssueNew(call, now)))
  {
    if call in s.calls && s.calls[call].Revoked? {
      assert CallOwnsToken(s, call);
      var t := Step(s, IssueNew(call, now));
      forall other | other in t.calls ensures CallOwnsToken(t, other) {
        if other != call { assert CallOwnsToken(s, other); }
      }
    }
  }

  lemma StepKeepsInv(s: State, a: Action)
    requires Inv(s)
    ensures Inv(Step(s, a))
  {
    match a
    case SignIn(user, now) => InsertKeepsRows(s, user, now);
    case RevokeOld(call, now) => RevokeOldKeepsInv(s, call, now);
    case IssueNew(call, now) => IssueNewKeepsInv(s, call, now);
    case Logout(token, actor, now) => RevokeKeepsInv(s, RevokeOne(s.rows, token, actor, now));
    case RevokeAll(user, now) => RevokeKeepsInv(s, RevokeUser(s.rows, user, now));
    case _ =>
      var t := Step(s, a);
      forall other | other in t.calls ensures CallOwnsToken(t, other) {
        if other in s.calls { assert CallOwnsToken(s, other); }
      }
  }

  lemma {:induction false} RunKeepsInv(s: State, actions: seq<Action>)
    requires Inv(s)
    ensures Inv(Run(s, actions))
    decreases |actions|
  {
    if actions != [] {
      StepKeepsInv(s, actions[0]);
      RunKeepsInv(Step(s, actions[0]), actions[1..]);
    }
  }

  // --- Main results ------------------------------------------------------------------------

  /** In every interleaving, each token has at most one successor, of the same user. */
  lemma EveryTokenHasAtMostOneSuccessor(actions: seq<Action>, i: nat, j: nat)
    requires var rows := Run(START, actions).rows;
             i < |rows| && j < |rows| && rows[i].parent.Some? && rows[i].parent == rows[j].parent
    ensures var rows := Run(START, actions).rows;
            i == j && rows[i].parent.value < |rows| && rows[rows[i].parent.value].user == rows[i].user
  {
    RunKeepsInv(START, actions);
  }

  /** The token that started the session a token belongs to. */
  ghost function SessionOf(rows: Table, i: nat): nat
    requires i < |rows|
    decreases i
  {
    if rows[i].parent.Some? && rows[i].parent.value < i then SessionOf(rows, rows[i].parent.value) else i
  }

  lemma {:induction false} SessionStartsEarlier(rows: Table, i: nat)
    requires i < |rows|
    ensures SessionOf(rows, i) <= i
    decreases i
  {
    if rows[i].parent.Some? && rows[i].parent.value < i { SessionStartsEarlier(rows, rows[i].parent.value); }
  }

  /** An earlier token of the same session has been renewed. */
  lemma {:induction false} EarlierTokenHasSuccessor(rows: Table, i: nat, j: nat) returns (k: nat)
    requires ParentsRevoked(rows) && SingleSuccessor(rows)
    requires i < j < |rows| && SessionOf(rows, i) == SessionOf(rows, j)
    ensures k <= j && rows[k].parent == Some(i)
    decreases j
  {
    SessionStartsEarlier(rows, i);
    var p := rows[j].parent.value;
    if p == i {
      k := j;
    } else if i < p {
      k := EarlierTokenHasSuccessor(rows, i, p);
    } else {
      k := EarlierTokenHasSuccessor(rows, p, i);
      assert false;
    }
  }

  /** In every interleaving, a session holds at most one unrevoked token. */
  lemma SessionHasAtMostOneLiveToken(actions: seq<Action>, i: nat, j: nat)
    requires var rows := Run(START, actions).rows;
             && i < |rows| && j < |rows| && SessionOf(rows, i) == SessionOf(rows, j)
             && rows[i].revokedAt.None? && rows[j].revokedAt.None?
    ensures i == j
  {
    RunKeepsInv(START, actions);
    var rows := Run(START, actions).rows;
    if i < j {
      var k := EarlierTokenHasSuccessor(rows, i, j);
      assert false;
    } else if j < i {
      var k := EarlierTokenHasSuccessor(rows, j, i);
      assert false;
    }
  }

  lemma {:induction false} RunExtends(s: State, actions: seq<Action>)
    ensures Extends(s.rows, Run(s, actions).rows)
    decreases |actions|
  {
    if actions != [] {
      RunExtends(Step(s, actions[0]), actions[1..]);
    }
  }

  /** Once set, `revoked_at` and `revoked_by` are never rewritten, whatever happens next. */
  lemma RevocationIsNeverRewritten(before: seq<Action>, later: seq<Action>, i: nat)
    requires i < |Run(START, before).rows| && Run(START, before).rows[i].revokedAt.Some?
    ensures i < |Run(Run(START, before), later).rows|
    ensures Run(Run(START, before), later).rows[i] == Run(START, before).rows[i]
  {
    RunExtends(Run(START, before), later);
  }
}
