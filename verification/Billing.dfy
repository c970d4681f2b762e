/**
 Payments, subscriptions and tenant status under checkout, payment notifications in any order and
 repetition, status reads that expire what has lapsed, and the cron sweep.

 Every write of the source can fail by itself; `Writes` and `SweepFailures` say which ones did.
 */
module Billing {
  import opened Common

  datatype TenantStatus = Trial | Active | Suspended | TrialExpired | Cancelled

  datatype Tenant = Tenant(status: TenantStatus, trialEndsAt: Option<int>)

  datatype Cycle = Monthly | Yearly

  datatype PaymentStatus = Pending | Success | Failed | Expired

  datatype Payment = Payment(tenant: nat, plan: nat, cycle: Cycle, status: PaymentStatus, subscription: Option<nat>)

  /** A subscription row; `active` is false once its status is `expired`. */
  datatype Subscription = Subscription(
    tenant: nat, plan: nat, cycle: Cycle, active: bool, expiresAt: Option<int>, createdAt: int, order: nat)

  /** The three tables. A subscription's id is its position; rows are never removed. */
  datatype State = State(payments: map<nat, Payment>, subs: seq<Subscription>, tenants: map<nat, Tenant>)

  /** A provider notification; `authentic` is the outcome of the field and signature checks. */
  datatype Notification = Notification(authentic: bool, order: nat, status: string, fraudStatus: string)

  /** When the call runs, and where calendar arithmetic puts the end of a month and of a year from then. */
  datatype Clock = Clock(now: int, monthEnd: int, yearEnd: int)

  /** Which lookups and writes of one call succeed. */
  datatype Writes = Writes(
    subsRead: bool, planFound: bool, expireAll: bool, createSub: bool, updatePayment: bool, updateSub: bool, updateTenant: bool)

  /** What of one sweep fails: the two list queries, trial updates by tenant, and the other writes by subscription. */
  datatype SweepFailures = SweepFailures(listTenants: bool, listSubs: bool, trials: set<nat>, subs: set<nat>, tenants: set<nat>)

  const ALL_OK := Writes(true, true, true, true, true, true, true)

  const NO_FAILURES := SweepFailures(false, false, {}, {}, {})

  // --- Single statements ----------------------------------------------------------------------------

  predicate IsSuccessStatus(n: Notification) {
    n.status == "settlement" || (n.status == "capture" && n.fraudStatus == "accept")
  }

  predicate IsFailedStatus(n: Notification) {
    n.status == "deny" || n.status == "cancel" || n.status == "failure"
  }

  predicate IsExpiredStatus(n: Notification) {
    n.status == "expire"
  }

  predicate IsExpired(sub: Subscription, now: int) {
    sub.expiresAt.Some? && sub.expiresAt.value < now
  }

  predicate TrialOver(t: Tenant, now: int) {
    t.status == Trial && t.trialEndsAt.Some? && t.trialEndsAt.value < now
  }

  predicate ActiveFor(sub: Subscription, tenant: nat) {
    sub.active && sub.tenant == tenant
  }

  function ExpireAllActive(subs: seq<Subscription>, tenant: nat): (after: seq<Subscription>)
    ensures |after| == |subs|
    ensures forall k :: 0 <= k < |subs| ==> after[k] == subs[k].(active := subs[k].active && subs[k].tenant != tenant)
  {
    seq(|subs|, k requires 0 <= k < |subs| => subs[k].(active := subs[k].active && subs[k].tenant != tenant))
  }

  /** The active subscription created last. */
  function LatestActive(subs: seq<Subscription>, tenant: nat): (found: Option<nat>)
    ensures found.Some? ==> found.value < |subs| && ActiveFor(subs[found.value], tenant)
    ensures found.None? ==> forall k :: 0 <= k < |subs| ==> !ActiveFor(subs[k], tenant)
    ensures found.Some? ==>
              forall k :: 0 <= k < |subs| && ActiveFor(subs[k], tenant) ==> subs[k].createdAt <= subs[found.value].createdAt
  {
    if subs == [] then None
    else
      var last := |subs| - 1;
      var best := LatestActive(subs[..last], tenant);
      if ActiveFor(subs[last], tenant) && (best.None? || subs[best.value].createdAt <= subs[last].createdAt) then Some(last)
      else best
  }

  function SetStatus(tenants: map<nat, Tenant>, tenant: nat, status: TenantStatus): map<nat, Tenant> {
    if tenant in tenants then tenants[tenant := tenants[tenant].(status := status)] else tenants
  }

  // --- The calls as functions of the tables -------------------------------------------------------------

  /** Records a pending payment under a new order id; losing the record is not an error. */
  function CheckoutStep(s: State, order: nat, tenant: nat, plan: nat, cycle: Cycle, recorded: bool): State {
    if recorded && order !in s.payments && tenant in s.tenants then
      s.(payments := s.payments[order := Payment(tenant, plan, cycle, Pending, None)])
    else s
  }

  function NewSubscription(pay: Payment, order: nat, clock: Clock): Subscription {
    Subscription(pay.tenant, pay.plan, pay.cycle, true,
                 Some(if pay.cycle == Yearly then clock.yearEnd else clock.monthEnd), clock.now, order)
  }

  function Activate(s: State, order: nat, clock: Clock, w: Writes): State
    requires order in s.payments
  {
    var pay := s.payments[order];
    var kept := if w.expireAll then ExpireAllActive(s.subs, pay.tenant) else s.subs;
    if !w.planFound || !w.createSub then s.(subs := kept)
    else
      var subs := kept + [NewSubscription(pay, order, clock)];
      if !w.updatePayment then s.(subs := subs)
      else
        State(s.payments[order := pay.(status := Success, subscription := Some(|kept|))],
              subs,
              if w.updateTenant then SetStatus(s.tenants, pay.tenant, Active) else s.tenants)
  }

  function MarkUnpaid(s: State, order: nat, status: PaymentStatus, w: Writes): State
    requires order in s.payments
  {
    if w.updatePayment then s.(payments := s.payments[order := s.payments[order].(status := status)]) else s
  }

  predicate IsOpen(s: State, n: Notification) {
    n.authentic && n.order in s.payments && s.payments[n.order].status != Success
  }

  function WebhookStep(s: State, n: Notification, clock: Clock, w: Writes): State {
    if !IsOpen(s, n) then s
    else if IsSuccessStatus(n) then Activate(s, n.order, clock, w)
    else if IsFailedStatus(n) then MarkUnpaid(s, n.order, Failed, w)
    else if IsExpiredStatus(n) then MarkUnpaid(s, n.order, Expired, w)
    else s
  }

  function ReadStep(s: State, tenant: nat, now: int, w: Writes): State {
    if tenant !in s.tenants || !w.subsRead then s
    else
      var found := LatestActive(s.subs, tenant);
      if found.Some? then
        if w.planFound && IsExpired(s.subs[found.value], now) then
          s.(subs := if w.updateSub then s.subs[found.value := s.subs[found.value].(active := false)] else s.subs,
             tenants := if w.updateTenant then SetStatus(s.tenants, tenant, Suspended) else s.tenants)
        else s
      else if TrialOver(s.tenants[tenant], now) && w.updateTenant then s.(tenants := SetStatus(s.tenants, tenant, Suspended))
      else s
  }

  function SweptTrials(tenants: map<nat, Tenant>, now: int, failing: set<nat>): map<nat, Tenant> {
    map t | t in tenants :: if TrialOver(tenants[t], now) && t !in failing then tenants[t].(status := TrialExpired) else tenants[t]
  }

  predicate Lapsed(sub: Subscription, now: int) {
    sub.active && IsExpired(sub, now)
  }

  predicate Lapses(subs: seq<Subscription>, tenant: nat, now: int, failing: set<nat>) {
    exists k :: 0 <= k < |subs| && subs[k].tenant == tenant && Lapsed(subs[k], now) && k !in failing
  }

  function SweptSubs(subs: seq<Subscription>, now: int, failing: set<nat>): (after: seq<Subscription>)
    ensures |after| == |subs|
    ensures forall k :: 0 <= k < |subs| ==>
              after[k] == if Lapsed(subs[k], now) && k !in failing then subs[k].(active := false) else subs[k]
  {
    seq(|subs|, k requires 0 <= k < |subs| =>
      if Lapsed(subs[k], now) && k !in failing then subs[k].(active := false) else subs[k])
  }

  function SweptTenants(tenants: map<nat, Tenant>, subs: seq<Subscription>, now: int, failing: set<nat>): map<nat, Tenant> {
    map t | t in tenants :: if Lapses(subs, t, now, failing) then tenants[t].(status := Suspended) else tenants[t]
  }

  function SweepStep(s: State, now: int, f: SweepFailures): State {
    if f.listTenants then s
    else if f.listSubs then s.(tenants := SweptTrials(s.tenants, now, f.trials))
    else
      State(s.payments, SweptSubs(s.subs, now, f.subs),
            SweptTenants(SweptTrials(s.tenants, now, f.trials), s.subs, now, f.tenants))
  }

  // --- The service ------------------------------------------------------------------------------------------

  datatype CheckoutError = PlanNotFound | CycleMismatch | UserNotFound | ProviderFailed

  datatype Answer = Unavailable | Status(status: TenantStatus)

  class BillingService {
    var payments: map<nat, Payment>
    var subs: seq<Subscription>
    var tenants: map<nat, Tenant>

    ghost function View(): State
      reads this
    {
      State(payments, subs, tenants)
    }

    method UpdateTenantStatus(tenant: nat, status: TenantStatus, succeeds: bool) returns (ok: bool)
      modifies this`tenants
      ensures tenants == if succeeds then SetStatus(old(tenants), tenant, status) else old(tenants)
      ensures ok <==> succeeds && tenant in tenants
    {
      if !succeeds || tenant !in tenants {
        return false;
      }
      tenants := tenants[tenant := tenants[tenant].(status := status)];
      return true;
    }

    /** Only a checkout the provider accepted is recorded, and losing the record does not fail it. */
    method Checkout(
      order: nat, tenant: nat, plan: nat, cycle: Cycle, plans: map<nat, Cycle>, userFound: bool, accepted: bool, recorded: bool)
      returns (outcome: Outcome<nat, CheckoutError>)
      modifies this`payments
      ensures outcome.Ok? <==> plan in plans && plans[plan] == cycle && userFound && accepted
      ensures View() == if outcome.Ok? then CheckoutStep(old(View()), order, tenant, plan, cycle, recorded) else old(View())
      ensures outcome.Ok? && recorded && order !in old(payments) && tenant in tenants ==>
                payments == old(payments)[order := Payment(tenant, plan, cycle, Pending, None)]
    {
      if plan !in plans {
        return Err(PlanNotFound);
      }
      if plans[plan] != cycle {
        return Err(CycleMismatch);
      }
      if !userFound {
        return Err(UserNotFound);
      }
      if !accepted {
        return Err(ProviderFailed);
      }
      if recorded && order !in payments && tenant in tenants {
        payments := payments[order := Payment(tenant, plan, cycle, Pending, None)];
      }
      return Ok(order);
    }

    method HandleWebhookNotification(n: Notification, clock: Clock, w: Writes) returns (ok: bool)
      modifies this
      ensures View() == WebhookStep(old(View()), n, clock, w)
      ensures !n.authentic || n.order !in old(payments) ==> !ok
      ensures n.authentic && n.order in old(payments) && old(payments)[n.order].status == Success ==> ok
    {
      if !n.authentic || n.order !in payments {
        return false;
      }
      if payments[n.order].status == Success {
        return true;
      }
      if IsSuccessStatus(n) {
        ok := ActivateSubscription(n.order, clock, w);
      } else if IsFailedStatus(n) {
        ok := w.updatePayment;
        if ok {
          payments := payments[n.order := payments[n.order].(status := Failed)];
        }
      } else if IsExpiredStatus(n) {
        ok := w.updatePayment;
        if ok {
          payments := payments[n.order := payments[n.order].(status := Expired)];
        }
      } else {
        ok := true;
      }
    }

    method ActivateSubscription(order: nat, clock: Clock, w: Writes) returns (ok: bool)
      requires order in payments
      modifies this
      ensures View() == Activate(old(View()), order, clock, w)
      ensures ok ==> w.planFound && w.createSub && w.updatePayment && w.updateTenant
    {
      var pay := payments[order];
      if w.expireAll {
        subs := ExpireAllActive(subs, pay.tenant);
      }
      if !w.planFound {
        return false;
      }
      var expiresAt := clock.monthEnd;
      if pay.cycle == Yearly {
        expiresAt := clock.yearEnd;
      }
      if !w.createSub {
        return false;
      }
      var id := |subs|;
      subs := subs + [Subscription(pay.tenant, pay.plan, pay.cycle, true, Some(expiresAt), clock.now, order)];
      if !w.updatePayment {
        return false;
      }
      payments := payments[order := pay.(status := Success, subscription := Some(id))];
      ok := UpdateTenantStatus(pay.tenant, Active, w.updateTenant);
    }

    method GetSubscriptionStatus(tenant: nat, now: int, w: Writes) returns (answer: Answer)
      modifies this
      ensures View() == ReadStep(old(View()), tenant, now, w)
      ensures answer == Unavailable <==>
                tenant !in old(tenants) || !w.subsRead || (LatestActive(old(subs), tenant).Some? && !w.planFound)
      ensures answer.Status? && LatestActive(old(subs), tenant).Some? ==>
                var end := old(subs)[LatestActive(old(subs), tenant).value].expiresAt;
                answer.status == if end.Some? && end.value < now then Suspended else Active
      ensures answer.Status? && LatestActive(old(subs), tenant).None? ==>
                var t := old(tenants)[tenant];
                answer.status == if t.status == Trial && t.trialEndsAt.Some? && t.trialEndsAt.value < now then TrialExpired else t.status
    {
      if tenant !in tenants || !w.subsRead {
        return Unavailable;
      }
      var found := LatestActive(subs, tenant);
      if found.Some? {
        if !w.planFound {
          return Unavailable;
        }
        if IsExpired(subs[found.value], now) {
          if w.updateSub {
            subs := subs[found.value := subs[found.value].(active := false)];
          }
          var _ := UpdateTenantStatus(tenant, Suspended, w.updateTenant);
          return Status(Suspended);
        }
        return Status(Active);
      }
      var t := tenants[tenant];
      if t.status == Trial && t.trialEndsAt.Some? {
        if t.trialEndsAt.value < now {
          var _ := UpdateTenantStatus(tenant, Suspended, w.updateTenant);
          return Status(TrialExpired);
        }
        return Status(Trial);
      }
      return Status(t.status);
    }

    method SweepTrials(now: int, failing: set<nat>)
      modifies this`tenants
      ensures tenants == SweptTrials(old(tenants), now, failing)
    {
      var listed := tenants;
      var todo := listed.Keys;
      while todo != {}
        invariant todo <= listed.Keys == tenants.Keys
        invariant forall t :: t in tenants ==>
                    tenants[t] == if t in todo then listed[t] else SweptTrials(listed, now, failing)[t]
        decreases |todo|
      {
        var t :| t in todo;
        todo := todo - {t};
        if TrialOver(listed[t], now) && t !in failing {
          tenants := tenants[t := listed[t].(status := TrialExpired)];
        }
      }
    }

    method SweepSubscription(k: nat, now: int, failing: SweepFailures) returns (remind: bool)
      requires k < |subs| && subs[k].active
      modifies this`tenants, this`subs
      ensures subs == if Lapsed(old(subs)[k], now) && k !in failing.subs then old(subs)[k := old(subs)[k].(active := false)] else old(subs)
      ensures tenants == if Lapsed(old(subs)[k], now) && k !in failing.tenants then SetStatus(old(tenants), old(subs)[k].tenant, Suspended) else old(tenants)
      ensures remind <==> Reminded(old(subs)[k], now)
    {
      var sub := subs[k];
      remind := false;
      if sub.expiresAt.Some? {
        if sub.expiresAt.value < now {
          if k !in failing.subs {
            subs := subs[k := sub.(active := false)];
          }
          var _ := UpdateTenantStatus(sub.tenant, Suspended, k !in failing.tenants);
        } else if now < sub.expiresAt.value < now + 3 * DAY {
          remind := true;
        }
      }
    }

    method SweepSubscriptions(now: int, failing: SweepFailures) returns (reminded: set<nat>)
      modifies this`tenants, this`subs
      ensures subs == SweptSubs(old(subs), now, failing.subs)
      ensures tenants == SweptTenants(old(tenants), old(subs), now, failing.tenants)
      ensures forall k: nat :: k in reminded <==> k < |old(subs)| && Reminded(old(subs)[k], now)
    {
      hide Lapses, SweptTenants, SweptSubs, Lapsed, Reminded, SetStatus;
      NothingSwept(tenants, now, failing.tenants);
      var listed := subs;
      assert listed[..0] == [];
      ghost var swept := SweptSubs(listed, now, failing.subs);
      reminded := {};
      for n := 0 to |listed|
        invariant |subs| == |listed|
        invariant forall k :: 0 <= k < n ==> subs[k] == swept[k]
        invariant forall k :: n <= k < |listed| ==> subs[k] == listed[k]
        invariant tenants == SweptTenants(old(tenants), listed[..n], now, failing.tenants)
        invariant forall k: nat :: k in reminded <==> k < n && Reminded(listed[k], now)
      {
        SweptOneMore(old(tenants), listed, n, now, failing.tenants);
        if listed[n].active {
          var remind := SweepSubscription(n, now, failing);
          if remind {
            reminded := reminded + {n};
          }
        } else {
          InactiveIsLeftAlone(listed[n], now);
        }
      }
      assert listed[..|listed|] == listed;
    }

    method ProcessExpiredSubscriptions(now: int, failing: SweepFailures) returns (ok: bool, reminded: set<nat>)
      modifies this
      ensures View() == SweepStep(old(View()), now, failing)
      ensures ok <==> !failing.listTenants && !failing.listSubs
      ensures forall k: nat :: k in reminded <==>
                && ok && k < |old(subs)| && old(subs)[k].active && old(subs)[k].expiresAt.Some?
                && now < old(subs)[k].expiresAt.value < now + 259200
    {
      if failing.listTenants {
        return false, {};
      }
      SweepTrials(now, failing.trials);
      if failing.listSubs {
        return false, {};
      }
      reminded := SweepSubscriptions(now, failing);
      ok := true;
    }
  }

  predicate Reminded(sub: Subscription, now: int) {
    sub.active && sub.expiresAt.Some? && now < sub.expiresAt.value < now + 3 * DAY
  }

  lemma LapsesOneMore(subs: seq<Subscription>, n: nat, now: int, failing: set<nat>)
    requires n < |subs|
    ensures forall t :: Lapses(subs[..n + 1], t, now, failing) <==>
              Lapses(subs[..n], t, now, failing) || (subs[n].tenant == t && Lapsed(subs[n], now) && n !in failing)
  {
    forall t | Lapses(subs[..n], t, now, failing) ensures Lapses(subs[..n + 1], t, now, failing) {
      var k :| 0 <= k < n && subs[..n][k].tenant == t && Lapsed(subs[..n][k], now) && k !in failing;
      assert subs[..n + 1][k] == subs[k];
    }
    assert subs[..n + 1][n] == subs[n];
  }

  lemma InactiveIsLeftAlone(sub: Subscription, now: int)
    ensures !sub.active ==> !Lapsed(sub, now) && !Reminded(sub, now)
  {}

  lemma NothingSwept(tenants: map<nat, Tenant>, now: int, failing: set<nat>)
    ensures SweptTenants(tenants, [], now, failing) == tenants
  {}

  lemma SweptOneMore(tenants: map<nat, Tenant>, subs: seq<Subscription>, n: nat, now: int, failing: set<nat>)
    requires n < |subs|
    ensures var before := SweptTenants(tenants, subs[..n], now, failing);
            SweptTenants(tenants, subs[..n + 1], now, failing) ==
              if Lapsed(subs[n], now) && n !in failing then SetStatus(before, subs[n].tenant, Suspended) else before
  {
    LapsesOneMore(subs, n, now, failing);
    hide Lapses, Lapsed;
  }

  // --- Runs ---------------------------------------------------------------------------------------------

  datatype Action =
    | Checkout(order: nat, tenant: nat, plan: nat, cycle: Cycle, recorded: bool)
    | Webhook(notification: Notification, clock: Clock, writes: Writes)
    | Read(tenant: nat, now: int, writes: Writes)
    | Sweep(now: int, failures: SweepFailures)

  function Step(s: State, a: Action): State {
    match a
    case Checkout(order, tenant, plan, cycle, recorded) => CheckoutStep(s, order, tenant, plan, cycle, recorded)
    case Webhook(n, clock, w) => WebhookStep(s, n, clock, w)
    case Read(tenant, now, w) => ReadStep(s, tenant, now, w)
    case Sweep(now, f) => SweepStep(s, now, f)
  }

  function Run(s: State, actions: seq<Action>): State
    decreases |actions|
  {
    if actions == [] then s else Run(Step(s, actions[0]), actions[1..])
  }

  /** The one write whose failure the source ignores although later steps rely on it. */
  predicate ExpiresFirst(a: Action) {
    a.Webhook? ==> a.writes.expireAll
  }

  predicate WritesSucceed(a: Action) {
    match a
    case Checkout(_, _, _, _, _) => true
    case Webhook(_, _, w) => w == ALL_OK
    case Read(_, _, w) => w == ALL_OK
    case Sweep(_, f) => f == NO_FAILURES
  }

  // --- At most one active subscription -----------------------------------------------------------------------

  ghost predicate OneActive(subs: seq<Subscription>) {
    forall j, k :: 0 <= j < k < |subs| && subs[j].active && subs[k].active ==> subs[j].tenant != subs[k].tenant
  }

  predicate HoldsActive(subs: seq<Subscription>, tenant: nat) {
    exists k :: 0 <= k < |subs| && ActiveFor(subs[k], tenant)
  }

  /** The call adds a second active subscription: it could not expire the first and still created one. */
  predicate Doubles(s: State, a: Action) {
    && a.Webhook? && IsOpen(s, a.notification) && IsSuccessStatus(a.notification)
    && !a.writes.expireAll && a.writes.planFound && a.writes.createSub
    && HoldsActive(s.subs, s.payments[a.notification.order].tenant)
  }

  /** Exactly one thing breaks it: activating while the ignored expiry of the old subscription failed. */
  lemma StepKeepsOneActive(s: State, a: Action)
    requires OneActive(s.subs)
    ensures OneActive(Step(s, a).subs) <==> !Doubles(s, a)
  {
    if a.Webhook? && IsOpen(s, a.notification) && IsSuccessStatus(a.notification) {
      var order, w := a.notification.order, a.writes;
      var pay := s.payments[order];
      var kept := if w.expireAll then ExpireAllActive(s.subs, pay.tenant) else s.subs;
      assert OneActive(kept);
      if w.planFound && w.createSub {
        var after := Step(s, a).subs;
        assert after == kept + [NewSubscription(pay, order, a.clock)];
        assert Doubles(s, a) <==> HoldsActive(kept, pay.tenant);
        if HoldsActive(kept, pay.tenant) {
          var k :| 0 <= k < |kept| && ActiveFor(kept[k], pay.tenant);
          assert after[k].active && after[|kept|].active;
        }
      }
    }
  }

  lemma {:induction false} AtMostOneActiveSubscription(s: State, actions: seq<Action>)
    requires OneActive(s.subs) && forall a :: a in actions ==> ExpiresFirst(a)
    ensures OneActive(Run(s, actions).subs)
    decreases |actions|
  {
    if actions != [] {
      assert ExpiresFirst(actions[0]);
      StepKeepsOneActive(s, actions[0]);
      hide OneActive, Step, HoldsActive;
      AtMostOneActiveSubscription(Step(s, actions[0]), actions[1..]);
    }
  }

  // --- Payments ---------------------------------------------------------------------------------------------

  lemma SuccessIsKeptByStep(s: State, a: Action, order: nat)
    requires order in s.payments && s.payments[order].status == Success
    ensures order in Step(s, a).payments && Step(s, a).payments[order] == s.payments[order]
  {}

  /** Whatever fails, a paid order keeps its whole row: its status, and the subscription it paid for. */
  lemma {:induction false} SuccessIsNeverLeft(s: State, actions: seq<Action>, order: nat)
    requires order in s.payments && s.payments[order].status == Success
    ensures order in Run(s, actions).payments && Run(s, actions).payments[order] == s.payments[order]
    decreases |actions|
  {
    if actions != [] {
      SuccessIsKeptByStep(s, actions[0], order);
      SuccessIsNeverLeft(Step(s, actions[0]), actions[1..], order);
    }
  }

  /** Subscriptions and paid orders point at each other. */
  ghost predicate Linked(s: State) {
    && (forall k :: 0 <= k < |s.subs| ==> PaidBy(s, k))
    && (forall o :: o in s.payments && s.payments[o].status == Success ==> Delivered(s, o))
  }

  predicate PaidBy(s: State, k: nat)
    requires k < |s.subs|
  {
    var o := s.subs[k].order;
    && o in s.payments && s.payments[o].status == Success && s.payments[o].subscription == Some(k)
    && s.payments[o].tenant == s.subs[k].tenant
  }

  predicate Delivered(s: State, o: nat)
    requires o in s.payments
  {
    s.payments[o].subscription.Some? && s.payments[o].subscription.value < |s.subs|
    && s.subs[s.payments[o].subscription.value].order == o
  }

  /** An active subscription's tenant is active; orders belong to tenants that exist. */
  ghost predicate TenantsAgree(s: State) {
    && (forall k :: 0 <= k < |s.subs| && s.subs[k].active ==>
          s.subs[k].tenant in s.tenants && s.tenants[s.subs[k].tenant].status == Active)
    && (forall o :: o in s.payments ==> s.payments[o].tenant in s.tenants)
  }

  ghost predicate Inv(s: State) {
    OneActive(s.subs) && Linked(s) && TenantsAgree(s)
  }

  /** Only the flags of subscriptions differ. */
  predicate SameOrders(a: seq<Subscription>, b: seq<Subscription>) {
    |a| == |b| && forall k :: 0 <= k < |a| ==> a[k].order == b[k].order && a[k].tenant == b[k].tenant && (b[k].active ==> a[k].active)
  }

  lemma LinkedAfterExpiry(s: State, t: State)
    requires Linked(s) && SameOrders(s.subs, t.subs) && t.payments == s.payments
    ensures Linked(t)
  {
    forall k | 0 <= k < |t.subs| ensures PaidBy(t, k) { assert PaidBy(s, k); }
    forall o | o in t.payments && t.payments[o].status == Success ensures Delivered(t, o) { assert Delivered(s, o); }
  }

  lemma ActivateKeepsLinked(s: State, order: nat, clock: Clock, w: Writes)
    requires Linked(s) && order in s.payments && s.payments[order].status != Success
    ensures Linked(Activate(s, order, clock, w)) <==> (w.createSub && w.planFound ==> w.updatePayment)
  {
    var t := Activate(s, order, clock, w);
    var kept := if w.expireAll then ExpireAllActive(s.subs, s.payments[order].tenant) else s.subs;
    LinkedAfterExpiry(s, s.(subs := kept));
    if w.planFound && w.createSub && !w.updatePayment {
      assert !PaidBy(t, |kept|);
    } else if w.planFound && w.createSub {
      forall k | 0 <= k < |t.subs| ensures PaidBy(t, k) {
        if k < |kept| {
          assert PaidBy(s.(subs := kept), k);
          assert t.subs[k] == kept[k];
        }
      }
      forall o | o in t.payments && t.payments[o].status == Success ensures Delivered(t, o) {
        if o != order {
          assert Delivered(s.(subs := kept), o);
        }
      }
    }
  }

  lemma MarkUnpaidKeepsLinked(s: State, order: nat, status: PaymentStatus, w: Writes)
    requires Linked(s) && order in s.payments && s.payments[order].status != Success && status != Success
    ensures Linked(MarkUnpaid(s, order, status, w))
  {
    var t := MarkUnpaid(s, order, status, w);
    forall k | 0 <= k < |t.subs| ensures PaidBy(t, k) { assert PaidBy(s, k); }
    forall o | o in t.payments && t.payments[o].status == Success ensures Delivered(t, o) { assert Delivered(s, o); }
  }

  lemma CheckoutKeepsLinked(s: State, order: nat, tenant: nat, plan: nat, cycle: Cycle, recorded: bool)
    requires Linked(s)
    ensures Linked(CheckoutStep(s, order, tenant, plan, cycle, recorded))
  {
    var t := CheckoutStep(s, order, tenant, plan, cycle, recorded);
    forall k | 0 <= k < |t.subs| ensures PaidBy(t, k) { assert PaidBy(s, k); }
    forall o | o in t.payments && t.payments[o].status == Success ensures Delivered(t, o) { assert Delivered(s, o); }
  }

  /** The call creates a subscription and fails to record it on the payment, which stays open. */
  predicate LosesPayment(s: State, a: Action) {
    a.Webhook? && IsOpen(s, a.notification) && IsSuccessStatus(a.notification) && !RecordsPayment(a)
  }

  /** A created subscription is recorded on its payment. */
  predicate RecordsPayment(a: Action) {
    a.Webhook? && a.writes.createSub && a.writes.planFound ==> a.writes.updatePayment
  }

  lemma StepKeepsLinked(s: State, a: Action)
    requires Linked(s)
    ensures Linked(Step(s, a)) <==> !LosesPayment(s, a)
  {
    match a
    case Checkout(order, tenant, plan, cycle, recorded) => CheckoutKeepsLinked(s, order, tenant, plan, cycle, recorded);
    case Webhook(n, clock, w) =>
      if IsOpen(s, n) {
        ActivateKeepsLinked(s, n.order, clock, w);
        MarkUnpaidKeepsLinked(s, n.order, Failed, w);
        MarkUnpaidKeepsLinked(s, n.order, Expired, w);
      }
    case Read(_, _, _) => LinkedAfterExpiry(s, Step(s, a));
    case Sweep(_, _) => LinkedAfterExpiry(s, Step(s, a));
  }

  lemma {:induction false} RunKeepsLinked(s: State, actions: seq<Action>)
    requires Linked(s) && forall a :: a in actions ==> RecordsPayment(a)
    ensures Linked(Run(s, actions))
    decreases |actions|
  {
    if actions != [] {
      assert RecordsPayment(actions[0]);
      StepKeepsLinked(s, actions[0]);
      hide Linked, Step;
      RunKeepsLinked(Step(s, actions[0]), actions[1..]);
    }
  }

  /** A payment that was not recorded is activated again by the next delivery of the same notification. */
  lemma LostPaymentIsActivatedTwice(s: State, a: Action, clock: Clock)
    requires Linked(s) && LosesPayment(s, a)
    ensures var t := WebhookStep(Step(s, a), a.notification, clock, ALL_OK);
            |t.subs| == |s.subs| + 2 && t.subs[|s.subs|].order == t.subs[|s.subs| + 1].order
  {}

  /** Each order creates at most one subscription, however often its notifications arrive. */
  lemma EachOrderCreatesOneSubscription(s: State, actions: seq<Action>, j: nat, k: nat)
    requires Linked(s) && forall a :: a in actions ==> RecordsPayment(a)
    requires var subs := Run(s, actions).subs; j < |subs| && k < |subs| && subs[j].order == subs[k].order
    ensures j == k
  {
    RunKeepsLinked(s, actions);
    assert PaidBy(Run(s, actions), j) && PaidBy(Run(s, actions), k);
  }

  // --- What a notification stores -------------------------------------------------------------------------

  /** The order can still be paid: it exists and is not paid yet. */
  predicate CanBePaid(s: State, order: nat) {
    order in s.payments && s.payments[order].status != Success
  }

  /** A success notification for an open order stores one subscription with the order's tenant, plan and cycle, for a year or a month from now. */
  lemma SuccessStoresTheOrdersSubscription(s: State, n: Notification, clock: Clock, w: Writes)
    requires n.authentic && CanBePaid(s, n.order)
    requires n.status == "settlement" || (n.status == "capture" && n.fraudStatus == "accept")
    requires w.planFound && w.createSub
    ensures var t, pay := WebhookStep(s, n, clock, w), s.payments[n.order];
            && |t.subs| == |s.subs| + 1
            && var added := t.subs[|s.subs|];
               && added.active && added.tenant == pay.tenant && added.plan == pay.plan && added.cycle == pay.cycle
               && added.order == n.order && added.createdAt == clock.now
               && (pay.cycle == Yearly ==> added.expiresAt == Some(clock.yearEnd))
               && (pay.cycle == Monthly ==> added.expiresAt == Some(clock.monthEnd))
  {}

  /** And, with all writes succeeding, marks the order as paid by it, ends the tenant's others, and activates the tenant. */
  lemma SuccessSettlesTheOrder(s: State, n: Notification, clock: Clock)
    requires n.authentic && CanBePaid(s, n.order)
    requires n.status == "settlement" || (n.status == "capture" && n.fraudStatus == "accept")
    ensures var t, pay := WebhookStep(s, n, clock, ALL_OK), s.payments[n.order];
            && t.payments == s.payments[n.order := Payment(pay.tenant, pay.plan, pay.cycle, Success, Some(|s.subs|))]
            && |t.subs| == |s.subs| + 1
            && (forall k :: 0 <= k < |s.subs| && s.subs[k].tenant == pay.tenant ==> t.subs[k] == s.subs[k].(active := false))
            && (forall k :: 0 <= k < |s.subs| && s.subs[k].tenant != pay.tenant ==> t.subs[k] == s.subs[k])
            && t.tenants.Keys == s.tenants.Keys
            && (forall x :: x in s.tenants ==> t.tenants[x] == if x == pay.tenant then s.tenants[x].(status := Active) else s.tenants[x])
  {}

  /** Any other notification touches at most the order's status: failed, expired, or as it was. */
  lemma OtherNotificationsMarkTheOrder(s: State, n: Notification, clock: Clock)
    requires n.authentic && CanBePaid(s, n.order)
    ensures var t := WebhookStep(s, n, clock, ALL_OK);
            && (n.status == "deny" || n.status == "cancel" || n.status == "failure" ==>
                  t == s.(payments := s.payments[n.order := s.payments[n.order].(status := Failed)]))
            && (n.status == "expire" ==> t == s.(payments := s.payments[n.order := s.payments[n.order].(status := Expired)]))
            && (n.status == "pending" || (n.status == "capture" && n.fraudStatus != "accept") ==> t == s)
            && (n.status !in {"settlement", "capture", "deny", "cancel", "failure", "expire"} ==> t == s)
  {}

  // --- Tenants -----------------------------------------------------------------------------------------------

  lemma StepKeepsTenantsAgree(s: State, a: Action)
    requires OneActive(s.subs) && TenantsAgree(s) && WritesSucceed(a)
    ensures TenantsAgree(Step(s, a))
  {
    var t := Step(s, a);
    assert t.tenants.Keys == s.tenants.Keys && (forall o :: o in t.payments ==> t.payments[o].tenant in t.tenants);
    forall k | 0 <= k < |t.subs| && t.subs[k].active
      ensures t.subs[k].tenant in t.tenants && t.tenants[t.subs[k].tenant].status == Active
    {
      ActiveAfterStep(s, a, k);
    }
    hide Step;
  }

  lemma ActiveAfterStep(s: State, a: Action, k: nat)
    requires OneActive(s.subs) && TenantsAgree(s) && WritesSucceed(a)
    requires k < |Step(s, a).subs| && Step(s, a).subs[k].active
    ensures var t := Step(s, a); t.subs[k].tenant in t.tenants && t.tenants[t.subs[k].tenant].status == Active
  {
    hide LatestActive;
    var t := Step(s, a);
    if k < |s.subs| {
      assert s.subs[k].active && s.subs[k].tenant == t.subs[k].tenant;
      assert forall j :: 0 <= j < |s.subs| && s.subs[j].active && s.subs[j].tenant == s.subs[k].tenant ==> j == k;
    }
  }

  lemma StepKeepsInv(s: State, a: Action)
    requires Inv(s) && WritesSucceed(a)
    ensures Inv(Step(s, a))
  {
    hide OneActive, Linked, TenantsAgree, Step;
    StepKeepsOneActive(s, a);
    StepKeepsLinked(s, a);
    assert RecordsPayment(a);
    StepKeepsTenantsAgree(s, a);
  }

  /** In every run whose writes succeed, a tenant with an active subscription is active. */
  lemma {:induction false} RunKeepsInv(s: State, actions: seq<Action>)
    requires Inv(s) && forall a :: a in actions ==> WritesSucceed(a)
    ensures Inv(Run(s, actions))
    decreases |actions|
  {
    if actions != [] {
      StepKeepsInv(s, actions[0]);
      RunKeepsInv(Step(s, actions[0]), actions[1..]);
    }
  }

  /** Neither the sweep nor a read touches a tenant whose active subscription has not expired, nor that subscription. */
  lemma PaidTenantIsNeverSuspended(s: State, a: Action, k: nat)
    requires Inv(s) && (a.Sweep? || a.Read?)
    requires k < |s.subs| && s.subs[k].active && (s.subs[k].expiresAt.None? || a.now <= s.subs[k].expiresAt.value)
    ensures Step(s, a).subs[k] == s.subs[k]
    ensures s.subs[k].tenant in Step(s, a).tenants
    ensures Step(s, a).tenants[s.subs[k].tenant] == s.tenants[s.subs[k].tenant]
    ensures Step(s, a).tenants[s.subs[k].tenant].status == Active
  {
    var t := s.subs[k].tenant;
    assert forall j :: 0 <= j < |s.subs| && ActiveFor(s.subs[j], t) ==> j == k;
  }

  // --- The sweep ----------------------------------------------------------------------------------------------

  lemma SweptTenantsTwice(tenants: map<nat, Tenant>, subs: seq<Subscription>, now: int)
    requires forall k :: 0 <= k < |subs| ==> !Lapsed(subs[k], now)
    ensures SweptTenants(tenants, subs, now, {}) == tenants
  {}

  lemma SweptTrialsTwice(tenants: map<nat, Tenant>, now: int)
    requires forall t :: t in tenants ==> !TrialOver(tenants[t], now)
    ensures SweptTrials(tenants, now, {}) == tenants
  {}

  lemma SweepEndsAllTrials(tenants: map<nat, Tenant>, subs: seq<Subscription>, now: int)
    ensures var after := SweptTenants(SweptTrials(tenants, now, {}), subs, now, {});
            forall t :: t in after ==> !TrialOver(after[t], now)
  {
    hide Lapses;
  }

  /** Sweeping again at the same time changes nothing. */
  lemma SweepIsIdempotent(s: State, now: int)
    ensures SweepStep(SweepStep(s, now, NO_FAILURES), now, NO_FAILURES) == SweepStep(s, now, NO_FAILURES)
  {
    var once := SweepStep(s, now, NO_FAILURES);
    assert forall k :: 0 <= k < |once.subs| ==> !Lapsed(once.subs[k], now);
    SweepEndsAllTrials(s.tenants, s.subs, now);
    SweptTrialsTwice(once.tenants, now);
    SweptTenantsTwice(once.tenants, once.subs, now);
    hide Lapsed, Lapses, SweptTrials, SweptTenants, TrialOver;
    assert SweptSubs(once.subs, now, {}) == once.subs;
  }

  /** What the sweep stores, row by row: exactly the lapsed subscriptions end, lapsed tenants are suspended, run-out trials end. */
  lemma SweepRowByRow(s: State, now: int)
    ensures var t := SweepStep(s, now, NO_FAILURES);
            && t.payments == s.payments && |t.subs| == |s.subs| && t.tenants.Keys == s.tenants.Keys
            && (forall k :: 0 <= k < |s.subs| ==>
                  t.subs[k] == if s.subs[k].active && s.subs[k].expiresAt.Some? && s.subs[k].expiresAt.value < now
                               then s.subs[k].(active := false) else s.subs[k])
            && (forall x :: x in s.tenants ==>
                  t.tenants[x] ==
                    if exists k :: 0 <= k < |s.subs| && s.subs[k].tenant == x && s.subs[k].active && s.subs[k].expiresAt.Some? && s.subs[k].expiresAt.value < now
                    then s.tenants[x].(status := Suspended)
                    else if s.tenants[x].status == Trial && s.tenants[x].trialEndsAt.Some? && s.tenants[x].trialEndsAt.value < now
                    then s.tenants[x].(status := TrialExpired)
                    else s.tenants[x])
  {
    forall x ensures Lapses(s.subs, x, now, {}) <==>
      exists k :: 0 <= k < |s.subs| && s.subs[k].tenant == x && s.subs[k].active && s.subs[k].expiresAt.Some? && s.subs[k].expiresAt.value < now
    {
      LapsesMeans(s.subs, x, now);
    }
    hide Lapses;
  }

  lemma LapsesMeans(subs: seq<Subscription>, x: nat, now: int)
    ensures Lapses(subs, x, now, {}) <==>
              exists k :: 0 <= k < |subs| && subs[k].tenant == x && subs[k].active && subs[k].expiresAt.Some? && subs[k].expiresAt.value < now
  {
    if Lapses(subs, x, now, {}) {
      var k :| 0 <= k < |subs| && subs[k].tenant == x && Lapsed(subs[k], now) && k !in {};
    }
    if k :| 0 <= k < |subs| && subs[k].tenant == x && subs[k].active && subs[k].expiresAt.Some? && subs[k].expiresAt.value < now {
      assert Lapsed(subs[k], now);
    }
  }

  /** The rows of one tenant agree in two states. */
  ghost predicate SameFor(a: State, b: State, tenant: nat) {
    && (tenant in a.tenants <==> tenant in b.tenants)
    && (tenant in a.tenants ==> a.tenants[tenant] == b.tenants[tenant])
    && |a.subs| == |b.subs|
    && forall k :: 0 <= k < |a.subs| && (a.subs[k].tenant == tenant || b.subs[k].tenant == tenant) ==> a.subs[k] == b.subs[k]
  }

  /** A tenant that is on an expired trial and pays for nothing. */
  predicate OnExpiredTrial(s: State, tenant: nat, now: int) {
    tenant in s.tenants && TrialOver(s.tenants[tenant], now) && LatestActive(s.subs, tenant).None?
  }

  lemma PaidReadAgreesWithSweep(s: State, tenant: nat, now: int, k: nat)
    requires OneActive(s.subs) && tenant in s.tenants && s.tenants[tenant].status == Active
    requires LatestActive(s.subs, tenant) == Some(k)
    ensures SameFor(ReadStep(s, tenant, now, ALL_OK), SweepStep(s, now, NO_FAILURES), tenant)
  {
    assert forall j :: 0 <= j < |s.subs| && ActiveFor(s.subs[j], tenant) ==> j == k;
    assert Lapses(s.subs, tenant, now, {}) <==> IsExpired(s.subs[k], now);
    hide LatestActive, Lapses, OneActive;
  }

  lemma UnpaidReadAgreesWithSweep(s: State, tenant: nat, now: int)
    requires LatestActive(s.subs, tenant) == None
    ensures SameFor(ReadStep(s, tenant, now, ALL_OK), SweepStep(s, now, NO_FAILURES), tenant) <==>
              !(tenant in s.tenants && TrialOver(s.tenants[tenant], now))
  {
    assert forall j :: 0 <= j < |s.subs| ==> !ActiveFor(s.subs[j], tenant);
    assert !Lapses(s.subs, tenant, now, {});
    hide LatestActive, Lapses;
  }

  /** Reading a tenant's status stores what the sweep would store, except at the end of a trial. */
  lemma ReadAgreesWithSweep(s: State, tenant: nat, now: int)
    requires Inv(s)
    ensures SameFor(ReadStep(s, tenant, now, ALL_OK), SweepStep(s, now, NO_FAILURES), tenant) <==> !OnExpiredTrial(s, tenant, now)
  {
    var found := LatestActive(s.subs, tenant);
    hide SameFor, ReadStep, SweepStep, LatestActive, Linked;
    match found
    case Some(k) =>
      assert ActiveFor(s.subs[k], tenant);
      PaidReadAgreesWithSweep(s, tenant, now, k);
    case None => UnpaidReadAgreesWithSweep(s, tenant, now);
  }

  function ReadAll(s: State, tenants: seq<nat>, now: int): State
    decreases |tenants|
  {
    if tenants == [] then s else ReadAll(ReadStep(s, tenants[0], now, ALL_OK), tenants[1..], now)
  }

  /** A read stores nothing about other tenants. */
  lemma ReadIsLocal(s: State, tenant: nat, other: nat, now: int, w: Writes)
    requires tenant != other
    ensures SameFor(ReadStep(s, tenant, now, w), s, other)
  {}

  lemma SweepIsLocal(s: State, t: State, tenant: nat, now: int)
    requires SameFor(s, t, tenant)
    ensures SameFor(SweepStep(s, now, NO_FAILURES), SweepStep(t, now, NO_FAILURES), tenant)
    ensures LatestActive(s.subs, tenant).None? <==> LatestActive(t.subs, tenant).None?
  {
    assert Lapses(s.subs, tenant, now, {}) <==> Lapses(t.subs, tenant, now, {}) by {
      assert forall k :: 0 <= k < |s.subs| ==>
        ((s.subs[k].tenant == tenant && Lapsed(s.subs[k], now)) <==> (t.subs[k].tenant == tenant && Lapsed(t.subs[k], now)));
    }
    hide Lapses, Lapsed;
  }

  lemma Chain(a: State, b: State, c: State, tenant: nat)
    ensures SameFor(a, b, tenant) && SameFor(b, c, tenant) ==> SameFor(a, c, tenant)
  {}

  lemma SameForAllMeansEqual(a: State, b: State)
    requires forall t :: SameFor(a, b, t)
    ensures a.tenants == b.tenants && a.subs == b.subs
  {
    assert SameFor(a, b, 0);
    forall k | 0 <= k < |a.subs| ensures a.subs[k] == b.subs[k] {
      assert SameFor(a, b, a.subs[k].tenant);
    }
    assert forall t :: t in a.tenants || t in b.tenants ==> SameFor(a, b, t);
  }

  lemma {:induction false} ReadAllKeepsPayments(s: State, tenants: seq<nat>, now: int)
    ensures ReadAll(s, tenants, now).payments == s.payments
    decreases |tenants|
  {
    if tenants != [] {
      ReadAllKeepsPayments(ReadStep(s, tenants[0], now, ALL_OK), tenants[1..], now);
    }
  }

  lemma UnknownTenantIsLeftAlone(s: State, tenant: nat, now: int)
    requires Inv(s) && tenant !in s.tenants
    ensures SameFor(s, SweepStep(s, now, NO_FAILURES), tenant)
  {}

  lemma NoTrialIsOverAfterTheSweep(s: State, t: State, tenant: nat, now: int)
    requires SameFor(t, SweepStep(s, now, NO_FAILURES), tenant)
    ensures !OnExpiredTrial(t, tenant, now)
  {
    SweepEndsAllTrials(s.tenants, s.subs, now);
    hide SweptTenants, SweptTrials, SweptSubs;
  }

  /** Reads leave a tenant they name as the sweep would, and every other tenant alone. */
  lemma {:induction false} ReadAllAgreesWithSweep(s: State, tenants: seq<nat>, now: int, tenant: nat)
    requires Inv(s)
    ensures tenant in tenants && !OnExpiredTrial(s, tenant, now) ==>
              SameFor(ReadAll(s, tenants, now), SweepStep(s, now, NO_FAILURES), tenant)
    ensures tenant !in tenants ==> SameFor(ReadAll(s, tenants, now), s, tenant)
    decreases |tenants|
  {
    if tenants != [] {
      var next := ReadStep(s, tenants[0], now, ALL_OK);
      var end := ReadAll(next, tenants[1..], now);
      var swept, sweptNext := SweepStep(s, now, NO_FAILURES), SweepStep(next, now, NO_FAILURES);
      StepKeepsInv(s, Read(tenants[0], now, ALL_OK));
      ReadAllAgreesWithSweep(next, tenants[1..], now, tenant);
      if tenants[0] != tenant {
        ReadIsLocal(s, tenants[0], tenant, now, ALL_OK);
        SweepIsLocal(next, s, tenant, now);
        assert OnExpiredTrial(s, tenant, now) <==> OnExpiredTrial(next, tenant, now);
        Chain(end, sweptNext, swept, tenant);
        Chain(end, next, s, tenant);
      } else if !OnExpiredTrial(s, tenant, now) {
        ReadAgreesWithSweep(s, tenant, now);
        NoTrialIsOverAfterTheSweep(s, next, tenant, now);
        SweepIsLocal(next, swept, tenant, now);
        SweepIsIdempotent(s, now);
        Chain(end, sweptNext, swept, tenant);
        Chain(end, next, swept, tenant);
      }
    }
  }

  /** With no trial running out, reading every tenant one by one is a sweep. */
  lemma ReadingEveryTenantIsASweep(s: State, tenants: seq<nat>, now: int)
    requires Inv(s) && forall t :: t in s.tenants ==> t in tenants && !OnExpiredTrial(s, t, now)
    ensures ReadAll(s, tenants, now) == SweepStep(s, now, NO_FAILURES)
  {
    var read, swept := ReadAll(s, tenants, now), SweepStep(s, now, NO_FAILURES);
    forall t ensures SameFor(read, swept, t) {
      ReadAllAgreesWithSweep(s, tenants, now, t);
      if t !in s.tenants {
        UnknownTenantIsLeftAlone(s, t, now);
        Chain(read, s, swept, t);
      }
    }
    SameForAllMeansEqual(read, swept);
    ReadAllKeepsPayments(s, tenants, now);
  }
}
