/**
 The 24-hour claim on RSVP reminders.

 Each reminder is inserted by a transaction that takes an advisory lock on the guest, looks for
 a recent reminder that did not fail, inserts and commits. Transactions of any number of app
 instances interleave, and so do the dispatchers and acknowledgements that move the inserted
 messages (module Delivery). Times are seconds.
 */
module Reminders {
  import opened Common
  import Delivery

  /** Tenant, event and guest: what the advisory lock and the lookup are keyed on. */
  datatype Key = Key(tenant: nat, event: nat, guest: nat)

  /**
   What is known about the reminder in the message row at the same position: its key, and as
   history whether it was forced and when its transaction started (the database's NOW()).
   */
  datatype Claim = Claim(key: Key, forced: bool, txStart: int)

  /** How far a claiming transaction has got. */
  datatype Call =
    | Started(claim: Claim, createdAt: int)
    | Locked(claim: Claim, createdAt: int)
    | Cleared(claim: Claim, createdAt: int)
    | Committed
    | Throttled
    | Aborted

  datatype State = State(mail: Delivery.State, claims: seq<Claim>, locks: map<Key, nat>, calls: map<nat, Call>)

  const START := State(Delivery.START, [], map[], map[])

  datatype Action =
    | Begin(call: nat, claim: Claim, createdAt: int)
    | TakeLock(call: nat)
    | CheckRecent(call: nat)
    | InsertAndCommit(call: nat)
    | Abort(call: nat)
    | Mail(action: Delivery.Action)

  predicate Live(status: Delivery.Status) {
    !status.Failed? && !status.Cancelled?
  }

  /** Row `i` would throttle a claim: same key, not failed or cancelled, created in the last 24 hours. */
  predicate Throttles(s: State, i: nat, claim: Claim) {
    && i < |s.claims| && i < |s.mail.rows|
    && s.claims[i].key == claim.key
    && Live(s.mail.rows[i].status)
    && s.mail.rows[i].createdAt >= claim.txStart - DAY
  }

  predicate Recent(s: State, claim: Claim) {
    exists i :: 0 <= i < |s.claims| && Throttles(s, i, claim)
  }

  predicate HasLock(c: Call) {
    c.Locked? || c.Cleared?
  }

  function Release(s: State, call: nat, outcome: Call): State
    requires call in s.calls && HasLock(s.calls[call])
  {
    s.(locks := s.locks - {s.calls[call].claim.key}, calls := s.calls[call := outcome])
  }

  /** One statement of one transaction, or one step of message delivery. */
  function Step(s: State, a: Action): State {
    match a
    case Begin(call, claim, createdAt) =>
      if call !in s.calls then s.(calls := s.calls[call := Started(claim, createdAt)]) else s
    case TakeLock(call) =>
      if call in s.calls && s.calls[call].Started? && s.calls[call].claim.key !in s.locks then
        var c := s.calls[call];
        s.(locks := s.locks[c.claim.key := call], calls := s.calls[call := Locked(c.claim, c.createdAt)])
      else s
    case CheckRecent(call) =>
      if call in s.calls && s.calls[call].Locked? then
        var c := s.calls[call];
        if !c.claim.forced && Recent(s, c.claim) then Release(s, call, Throttled)
        else s.(calls := s.calls[call := Cleared(c.claim, c.createdAt)])
      else s
    case InsertAndCommit(call) =>
      if call in s.calls && s.calls[call].Cleared? then
        var c := s.calls[call];
        Release(s, call, Committed).(
          mail := Delivery.Step(s.mail, Delivery.Create(c.createdAt)),
          claims := s.claims + [c.claim])
      else s
    case Abort(call) =>
      if call in s.calls && HasLock(s.calls[call]) then Release(s, call, Aborted) else s
    case Mail(action) => if action.Create? then s else s.(mail := Delivery.Step(s.mail, action))
  }

  function Run(s: State, actions: seq<Action>): State
    decreases |actions|
  {
    if actions == [] then s else Run(Step(s, actions[0]), actions[1..])
  }

  // --- Invariant --------------------------------------------------------------------------------

  ghost predicate CallIsCurrent(s: State, call: nat)
    requires call in s.calls
  {
    var c := s.calls[call];
    && (HasLock(c) ==> c.claim.key in s.locks && s.locks[c.claim.key] == call)
    && (c.Cleared? && !c.claim.forced ==> !Recent(s, c.claim))
  }

  ghost predicate LockIsUsed(s: State, key: Key)
    requires key in s.locks
  {
    s.locks[key] in s.calls && HasLock(s.calls[s.locks[key]]) && s.calls[s.locks[key]].claim.key == key
  }

  ghost predicate Locking(s: State) {
    && (forall call :: call in s.calls ==> CallIsCurrent(s, call))
    && (forall key :: key in s.locks ==> LockIsUsed(s, key))
  }

  ghost predicate Mailing(s: State) {
    Delivery.Inv(s.mail) && |s.claims| == |s.mail.rows|
  }

  /** An unforced claim found no live reminder of its guest in its last 24 hours among all earlier ones. */
  ghost predicate Spaced(s: State) {
    forall i, j :: 0 <= i < j < |s.claims| && !s.claims[j].forced ==> !Throttles(s, i, s.claims[j])
  }

  ghost predicate Inv(s: State) {
    Mailing(s) && Locking(s) && Spaced(s)
  }

  /** Message delivery brings no failed reminder back, so it throttles nothing new. */
  lemma MailThrottlesNothingNew(s: State, a: Delivery.Action, i: nat, claim: Claim)
    requires Mailing(s) && !a.Create?
    ensures Throttles(Step(s, Mail(a)), i, claim) ==> Throttles(s, i, claim)
  {
    Delivery.StepKeepsInv(s.mail, a);
    hide Delivery.Step;
    if i < |s.mail.rows| { assert Delivery.Endures(s.mail.rows[i], Delivery.Step(s.mail, a).rows[i]); }
  }

  lemma MailKeepsInv(s: State, a: Delivery.Action)
    requires Inv(s) && !a.Create?
    ensures Inv(Step(s, Mail(a)))
  {
    var t := Step(s, Mail(a));
    Delivery.StepKeepsInv(s.mail, a);
    assert t.calls == s.calls && t.locks == s.locks && t.claims == s.claims;
    forall i: nat, claim ensures Throttles(t, i, claim) ==> Throttles(s, i, claim) {
      MailThrottlesNothingNew(s, a, i, claim);
    }
    hide Step, Delivery.Step, Delivery.Inv, Throttles;
    forall call | call in t.calls ensures CallIsCurrent(t, call) {
      assert CallIsCurrent(s, call);
    }
    forall key | key in t.locks ensures LockIsUsed(t, key) {
      assert LockIsUsed(s, key);
    }
  }

  lemma SameMailSameRecent(s: State, t: State)
    requires t.mail == s.mail && t.claims == s.claims
    ensures forall claim :: Recent(t, claim) == Recent(s, claim)
    ensures Mailing(s) ==> Mailing(t)
    ensures Spaced(s) ==> Spaced(t)
  {
    assert forall i: nat, claim :: Throttles(t, i, claim) == Throttles(s, i, claim);
  }

  lemma ReleaseKeepsLocking(s: State, call: nat, outcome: Call)
    requires Locking(s) && call in s.calls && HasLock(s.calls[call]) && !HasLock(outcome)
    ensures Locking(Release(s, call, outcome))
  {
    var t := Release(s, call, outcome);
    SameMailSameRecent(s, t);
    hide Recent;
    assert CallIsCurrent(s, call);
    forall other | other in t.calls ensures CallIsCurrent(t, other) {
      if other != call { assert CallIsCurrent(s, other); }
    }
    forall key | key in t.locks ensures LockIsUsed(t, key) {
      assert LockIsUsed(s, key);
    }
  }

  lemma AdvanceKeepsLocking(s: State, a: Action)
    requires (a.Begin? || a.TakeLock? || a.CheckRecent?) && Locking(s)
    requires a.CheckRecent? && a.call in s.calls && s.calls[a.call].Locked?
             ==> s.calls[a.call].claim.forced || !Recent(s, s.calls[a.call].claim)
    ensures Locking(Step(s, a))
  {
    var t := Step(s, a);
    SameMailSameRecent(s, t);
    hide Recent;
    forall other | other in t.calls ensures CallIsCurrent(t, other) {
      if other in s.calls { assert CallIsCurrent(s, other); }
    }
    forall key | key in t.locks ensures LockIsUsed(t, key) {
      if key in s.locks { assert LockIsUsed(s, key); }
    }
  }

  /** The lock keeps every other unforced claim on the same key from having cleared its check. */
  lemma CommitKeepsInv(s: State, call: nat)
    requires Inv(s) && call in s.calls && s.calls[call].Cleared?
    ensures Inv(Step(s, InsertAndCommit(call)))
  {
    var c := s.calls[call];
    var r := Release(s, call, Committed);
    ReleaseKeepsLocking(s, call, Committed);
    assert CallIsCurrent(s, call);
    var t := Step(s, InsertAndCommit(call));
    Delivery.StepKeepsInv(s.mail, Delivery.Create(c.createdAt));
    var n := |s.claims|;
    assert forall i :: 0 <= i < n ==> t.claims[i] == s.claims[i] && t.mail.rows[i] == s.mail.rows[i];
    assert t.claims[n] == c.claim;
    assert forall i: nat, claim :: i < n ==> Throttles(t, i, claim) == Throttles(s, i, claim);
    hide Step, Delivery.Step, Delivery.Inv;
    forall other | other in t.calls ensures CallIsCurrent(t, other) {
      if other != call {
        assert CallIsCurrent(r, other) && CallIsCurrent(s, other);
        OtherKeyStaysClear(s, t, s.calls[other], c.claim.key);
      }
    }
    forall key | key in t.locks ensures LockIsUsed(t, key) {
      assert LockIsUsed(r, key);
    }
  }

  lemma OtherKeyStaysClear(s: State, t: State, c: Call, key: Key)
    requires |t.claims| == |s.claims| + 1 && t.claims[|s.claims|].key == key
    requires forall i: nat, claim :: i < |s.claims| ==> Throttles(t, i, claim) == Throttles(s, i, claim)
    requires c.Cleared? && !c.claim.forced ==> !Recent(s, c.claim)
    requires c.Cleared? ==> c.claim.key != key
    ensures c.Cleared? && !c.claim.forced ==> !Recent(t, c.claim)
  {}

  lemma StepKeepsInv(s: State, a: Action)
    requires Inv(s)
    ensures Inv(Step(s, a))
  {
    match a
    case Mail(action) => if !action.Create? { MailKeepsInv(s, action); }
    case InsertAndCommit(call) => if call in s.calls && s.calls[call].Cleared? { CommitKeepsInv(s, call); }
    case Abort(call) =>
      SameMailSameRecent(s, Step(s, a));
      hide Mailing, Spaced, Locking;
      if call in s.calls && HasLock(s.calls[call]) { ReleaseKeepsLocking(s, call, Aborted); }
    case CheckRecent(call) =>
      SameMailSameRecent(s, Step(s, a));
      hide Mailing, Spaced, Locking, Recent;
      if call in s.calls && s.calls[call].Locked? && !s.calls[call].claim.forced && Recent(s, s.calls[call].claim) {
        ReleaseKeepsLocking(s, call, Throttled);
      } else {
        AdvanceKeepsLocking(s, a);
      }
    case _ =>
      SameMailSameRecent(s, Step(s, a));
      hide Mailing, Spaced, Locking, Recent;
      AdvanceKeepsLocking(s, a);
  }

  lemma {:induction false} RunKeepsInv(s: State, actions: seq<Action>)
    requires Inv(s)
    ensures Inv(Run(s, actions))
    decreases |actions|
  {
    if actions != [] {
      StepKeepsInv(s, actions[0]);
      RunKeepsInv(Step(s, actions[0]), actions[1..]);
    }
  }

  /** A claim is throttled exactly when it is not forced and a reminder of its guest, neither failed nor cancelled, is at most 24 hours old. */
  lemma ThrottledExactly(s: State, call: nat)
    requires call in s.calls && s.calls[call].Locked? && |s.claims| == |s.mail.rows|
    ensures var claim := s.calls[call].claim;
            Step(s, CheckRecent(call)).calls[call].Throttled? <==>
              && !claim.forced
              && exists i :: 0 <= i < |s.claims| && s.claims[i].key == claim.key
                             && s.mail.rows[i].status != Delivery.Failed && s.mail.rows[i].status != Delivery.Cancelled
                             && s.mail.rows[i].createdAt >= claim.txStart - 86400
  {
    var claim := s.calls[call].claim;
    assert forall i :: 0 <= i < |s.claims| ==>
      (Throttles(s, i, claim) <==>
        && s.claims[i].key == claim.key && s.mail.rows[i].status != Delivery.Failed && s.mail.rows[i].status != Delivery.Cancelled
        && s.mail.rows[i].createdAt >= claim.txStart - 86400);
  }

  // --- Main result --------------------------------------------------------------------------------

  /**
   In every interleaving, of two reminders to one guest of which the earlier has not failed and the
   later was not forced, the later transaction started more than 24 hours after the earlier row's
   creation time.
   */
  lemma RemindersAreADayApart(actions: seq<Action>, i: nat, j: nat)
    requires var s := Run(START, actions);
             && i < j < |s.claims| && |s.claims| == |s.mail.rows|
             && s.claims[i].key == s.claims[j].key && !s.claims[j].forced
             && Live(s.mail.rows[i].status)
    ensures var s := Run(START, actions);
            s.claims[j].txStart > s.mail.rows[i].createdAt + DAY
  {
    RunKeepsInv(START, actions);
    var s := Run(START, actions);
    assert !Throttles(s, i, s.claims[j]);
  }

  /** Every message row is accounted for by a claim, so the previous result speaks about all rows. */
  lemma EveryReminderHasAClaim(actions: seq<Action>)
    ensures var s := Run(START, actions); |s.claims| == |s.mail.rows|
  {
    RunKeepsInv(START, actions);
  }
}
