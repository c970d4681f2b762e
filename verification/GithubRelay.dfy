/**
 The relay of repository events to WhatsApp, and its memory of recent deliveries.

 A handler reads the clock, then under a mutex evicts deliveries older than 24 hours and claims
 its delivery id unless it is already claimed; outside the mutex it sends to every recipient and,
 if nobody was reached, gives the claim back. Handlers interleave freely. Times are nanoseconds.
 */
module GithubRelay {
  const NANOSECOND_DAY := 86_400_000_000_000

  type Deliveries = map<string, int>

  /** The entries a claim at `now` keeps. */
  function Evict(deliveries: Deliveries, now: int): Deliveries {
    map id | id in deliveries && now - deliveries[id] <= NANOSECOND_DAY :: deliveries[id]
  }

  /** The memory after a claim attempt. */
  function Claim(deliveries: Deliveries, id: string, now: int): Deliveries {
    var kept := Evict(deliveries, now);
    if id in kept then kept else kept[id := now]
  }

  datatype Reply = Duplicate | Unavailable | Relayed(attempted: nat, sent: nat, failed: nat)

  function CountTrue(results: seq<bool>): (n: nat)
    ensures n <= |results|
    ensures n == 0 <==> forall i :: 0 <= i < |results| ==> !results[i]
  {
    if results == [] then 0
    else
      var last := |results| - 1;
      assert forall i :: 0 <= i < last ==> results[..last][i] == results[i];
      CountTrue(results[..last]) + if results[last] then 1 else 0
  }

  /** The handler's shared memory; `results` stands for what the provider answers to each send. */
  class Relay {
    var deliveries: Deliveries

    method IsDuplicate(id: string, now: int) returns (duplicate: bool)
      modifies this
      ensures deliveries == Claim(old(deliveries), id, now)
      ensures duplicate <==> id in Evict(old(deliveries), now)
      ensures duplicate <==> id in old(deliveries) && now - old(deliveries)[id] <= 86_400_000_000_000
      ensures id in deliveries && deliveries[id] == if duplicate then old(deliveries)[id] else now
      ensures forall k :: k != id ==> (k in deliveries <==> k in old(deliveries) && now - old(deliveries)[k] <= 86_400_000_000_000)
      ensures forall k :: k != id && k in deliveries ==> deliveries[k] == old(deliveries)[k]
    {
      var ids := deliveries.Keys;
      while ids != {}
        invariant ids <= deliveries.Keys <= old(deliveries).Keys
        invariant forall k :: k in deliveries ==> deliveries[k] == old(deliveries)[k]
        invariant forall k :: k in old(deliveries) ==>
                    (k in deliveries <==> k in ids || now - old(deliveries)[k] <= NANOSECOND_DAY)
        decreases |ids|
      {
        var next :| next in ids;
        if now - deliveries[next] > NANOSECOND_DAY {
          deliveries := deliveries - {next};
        }
        ids := ids - {next};
      }
      assert deliveries == Evict(old(deliveries), now);
      if id in deliveries {
        return true;
      }
      deliveries := deliveries[id := now];
      return false;
    }

    method ReleaseDelivery(id: string)
      modifies this
      ensures deliveries == old(deliveries) - {id}
    {
      deliveries := deliveries - {id};
    }

    method Handle(id: string, now: int, results: seq<bool>) returns (reply: Reply)
      modifies this
      ensures reply.Duplicate? <==> id in Evict(old(deliveries), now)
      ensures reply.Unavailable? <==> !reply.Duplicate? && forall i :: 0 <= i < |results| ==> !results[i]
      ensures reply.Relayed? ==> reply == Relayed(|results|, CountTrue(results), |results| - CountTrue(results))
      ensures deliveries == if reply.Unavailable? then Claim(old(deliveries), id, now) - {id}
                            else Claim(old(deliveries), id, now)
    {
      var duplicate := IsDuplicate(id, now);
      if duplicate {
        return Duplicate;
      }
      var sent, failed := 0, 0;
      for i := 0 to |results|
        invariant sent == CountTrue(results[..i]) && sent + failed == i
      {
        assert results[..i + 1][..i] == results[..i];
        if results[i] {
          sent := sent + 1;
        } else {
          failed := failed + 1;
        }
      }
      assert results[..|results|] == results;
      if sent == 0 {
        ReleaseDelivery(id);
        return Unavailable;
      }
      return Relayed(|results|, sent, failed);
    }
  }

  // --- Interleaved handlers -----------------------------------------------------------------------

  datatype Phase =
    | ReadClock
    | Sending(sent: nat, failed: nat)
    | Reached
    | GaveBack
    | WasDuplicate

  /** One request: its delivery id, the time it read for its claim, and how far it has got. */
  datatype Handler = Handler(id: string, claimTime: int, phase: Phase)

  datatype State = State(clock: int, recipients: nat, deliveries: Deliveries, handlers: map<nat, Handler>)

  datatype Action =
    | Tick(elapsed: nat)
    | Arrive(handler: nat, id: string)
    | EnterLock(handler: nat)
    | Send(handler: nat, delivered: bool)
    | Finish(handler: nat)

  predicate Unfinished(h: Handler) {
    h.phase.ReadClock? || h.phase.Sending?
  }

  /** In flight with a claim, or done with at least one recipient reached. */
  predicate HoldsClaim(h: Handler) {
    h.phase.Sending? || h.phase.Reached?
  }

  /** The runs considered: every handler finishes within 24 hours of the time it read. */
  predicate Timely(s: State, elapsed: nat) {
    forall h :: h in s.handlers && Unfinished(s.handlers[h]) ==> s.clock + elapsed - s.handlers[h].claimTime <= NANOSECOND_DAY
  }

  function Step(s: State, a: Action): State {
    match a
    case Tick(elapsed) => if Timely(s, elapsed) then s.(clock := s.clock + elapsed) else s
    case Arrive(h, id) =>
      if h !in s.handlers then s.(handlers := s.handlers[h := Handler(id, s.clock, ReadClock)]) else s
    case EnterLock(h) =>
      if h in s.handlers && s.handlers[h].phase.ReadClock? then
        var me := s.handlers[h];
        var phase := if me.id in Evict(s.deliveries, me.claimTime) then WasDuplicate else Sending(0, 0);
        s.(deliveries := Claim(s.deliveries, me.id, me.claimTime), handlers := s.handlers[h := me.(phase := phase)])
      else s
    case Send(h, delivered) =>
      if h in s.handlers && s.handlers[h].phase.Sending?
         && s.handlers[h].phase.sent + s.handlers[h].phase.failed < s.recipients then
        var p := s.handlers[h].phase;
        var p' := if delivered then Sending(p.sent + 1, p.failed) else Sending(p.sent, p.failed + 1);
        s.(handlers := s.handlers[h := s.handlers[h].(phase := p')])
      else s
    case Finish(h) =>
      if h in s.handlers && s.handlers[h].phase.Sending?
         && s.handlers[h].phase.sent + s.handlers[h].phase.failed == s.recipients then
        if s.handlers[h].phase.sent == 0
        then s.(deliveries := s.deliveries - {s.handlers[h].id},
                handlers := s.handlers[h := s.handlers[h].(phase := GaveBack)])
        else s.(handlers := s.handlers[h := s.handlers[h].(phase := Reached)])
      else s
  }

  function Run(s: State, actions: seq<Action>): State
    decreases |actions|
  {
    if actions == [] then s else Run(Step(s, actions[0]), actions[1..])
  }

  function Start(clock: int, recipients: nat): State {
    State(clock, recipients, map[], map[])
  }

  // --- Invariant ---------------------------------------------------------------------------------------

  /** A claim of the last 24 hours. */
  predicate Current(s: State, h: nat)
    requires h in s.handlers
  {
    HoldsClaim(s.handlers[h]) && s.clock - s.handlers[h].claimTime <= NANOSECOND_DAY
  }

  ghost predicate OnTime(s: State) {
    forall h :: h in s.handlers ==>
      && s.handlers[h].claimTime <= s.clock
      && (Unfinished(s.handlers[h]) ==> s.clock - s.handlers[h].claimTime <= NANOSECOND_DAY)
  }

  ghost predicate CurrentClaimsStored(s: State) {
    forall h :: h in s.handlers && Current(s, h) ==>
      s.handlers[h].id in s.deliveries && s.deliveries[s.handlers[h].id] == s.handlers[h].claimTime
  }

  ghost predicate OneClaimPerId(s: State) {
    forall g, h | g in s.handlers && h in s.handlers && Current(s, g) && Current(s, h) ::
      s.handlers[g].id == s.handlers[h].id ==> g == h
  }

  ghost predicate Owns(s: State, h: nat, id: string) {
    h in s.handlers && id in s.deliveries && HoldsClaim(s.handlers[h]) && s.handlers[h].id == id
    && s.handlers[h].claimTime == s.deliveries[id]
  }

  ghost predicate EntriesOwned(s: State) {
    forall id :: id in s.deliveries ==> exists h :: Owns(s, h, id)
  }

  ghost predicate Inv(s: State) {
    OnTime(s) && CurrentClaimsStored(s) && OneClaimPerId(s) && EntriesOwned(s)
  }

  /** A current claim of `t` is the same current claim in `s`, stored alike in both. */
  ghost predicate Carried(s: State, t: State, g: nat)
    requires g in t.handlers
  {
    && g in s.handlers && Current(s, g)
    && t.handlers[g].id == s.handlers[g].id && t.handlers[g].claimTime == s.handlers[g].claimTime
    && t.handlers[g].id in t.deliveries && t.handlers[g].id in s.deliveries
    && t.deliveries[t.handlers[g].id] == s.deliveries[t.handlers[g].id]
  }

  lemma CarriedClaimsKeepInv(s: State, t: State)
    requires Inv(s) && OnTime(t) && EntriesOwned(t)
    requires forall g :: g in t.handlers && Current(t, g) ==> Carried(s, t, g)
    ensures Inv(t)
  {
    hide OnTime, EntriesOwned, Current;
    forall g, h | g in t.handlers && h in t.handlers && Current(t, g) && Current(t, h) && t.handlers[g].id == t.handlers[h].id
      ensures g == h
    {
      assert Carried(s, t, g) && Carried(s, t, h);
    }
    forall g | g in t.handlers && Current(t, g)
      ensures t.handlers[g].id in t.deliveries && t.deliveries[t.handlers[g].id] == t.handlers[g].claimTime
    {
      assert Carried(s, t, g);
    }
  }

  /** Entries keep their owner when the memory only shrinks and claim holders keep their claims. */
  lemma OwnersStay(s: State, t: State)
    requires EntriesOwned(s)
    requires forall id :: id in t.deliveries ==> id in s.deliveries && t.deliveries[id] == s.deliveries[id]
    requires forall h :: h in s.handlers && HoldsClaim(s.handlers[h]) && s.handlers[h].id in t.deliveries ==>
               && h in t.handlers && HoldsClaim(t.handlers[h])
               && t.handlers[h].id == s.handlers[h].id && t.handlers[h].claimTime == s.handlers[h].claimTime
    ensures EntriesOwned(t)
  {
    forall id | id in t.deliveries ensures exists h :: Owns(t, h, id) {
      var h :| Owns(s, h, id);
      assert Owns(t, h, id);
    }
  }

  lemma TurnAwayKeepsInv(s: State, h: nat)
    requires Inv(s) && h in s.handlers && s.handlers[h].phase.ReadClock?
    requires s.handlers[h].id in Evict(s.deliveries, s.handlers[h].claimTime)
    ensures Inv(Step(s, EnterLock(h)))
  {
    var t := Step(s, EnterLock(h));
    OwnersStay(s, t);
    hide EntriesOwned, OneClaimPerId;
    forall g | g in t.handlers && Current(t, g) ensures Carried(s, t, g) {
      assert Current(s, g);
    }
    CarriedClaimsKeepInv(s, t);
  }

  lemma ClaimIsStored(s: State, h: nat, g: nat)
    requires OnTime(s) && CurrentClaimsStored(s) && h in s.handlers && s.handlers[h].phase.ReadClock?
    requires g in s.handlers && g != h && Current(s, g)
    requires s.handlers[h].id !in Evict(s.deliveries, s.handlers[h].claimTime)
    ensures var t := Step(s, EnterLock(h));
            && s.handlers[g].id != s.handlers[h].id && s.handlers[g].id in t.deliveries
            && t.deliveries[s.handlers[g].id] == s.handlers[g].claimTime
  {}

  lemma AdmitKeepsInv(s: State, h: nat)
    requires Inv(s) && h in s.handlers && s.handlers[h].phase.ReadClock?
    requires s.handlers[h].id !in Evict(s.deliveries, s.handlers[h].claimTime)
    ensures Inv(Step(s, EnterLock(h)))
  {
    var t := Step(s, EnterLock(h));
    var me := s.handlers[h];
    forall g | g in t.handlers && g != h && Current(t, g)
      ensures g in s.handlers && Current(s, g) && t.handlers[g] == s.handlers[g]
      ensures t.handlers[g].id != me.id && t.handlers[g].id in t.deliveries
      ensures t.deliveries[t.handlers[g].id] == t.handlers[g].claimTime
    {
      assert Current(s, g);
      ClaimIsStored(s, h, g);
    }
    assert t.deliveries[me.id] == me.claimTime && t.handlers[h] == Handler(me.id, me.claimTime, Sending(0, 0));
    assert OnTime(t);
    forall id | id in t.deliveries ensures exists g :: Owns(t, g, id) {
      if id == me.id {
        assert Owns(t, h, id);
      } else {
        var g :| Owns(s, g, id);
        assert Owns(t, g, id);
      }
    }
    hide Step, EntriesOwned, OnTime;
    assert CurrentClaimsStored(t);
    assert OneClaimPerId(t);
  }

  lemma FinishKeepsInv(s: State, h: nat)
    requires Inv(s) && h in s.handlers && s.handlers[h].phase.Sending?
    ensures Inv(Step(s, Finish(h)))
  {
    var t := Step(s, Finish(h));
    assert Current(s, h);
    OwnersOfOthersStay(s, h);
    hide EntriesOwned;
    forall g | g in t.handlers && Current(t, g) ensures Carried(s, t, g) {
      assert Current(s, g);
    }
    CarriedClaimsKeepInv(s, t);
  }

  lemma OwnersOfOthersStay(s: State, h: nat)
    requires EntriesOwned(s) && h in s.handlers && s.handlers[h].phase.Sending?
    ensures EntriesOwned(Step(s, Finish(h)))
  {
    OwnersStay(s, Step(s, Finish(h)));
  }

  lemma OtherStepsKeepInv(s: State, a: Action)
    requires Inv(s) && !a.EnterLock? && !a.Finish?
    ensures Inv(Step(s, a))
  {
    var t := Step(s, a);
    OtherStepsKeepTime(s, a);
    OtherStepsKeepOwners(s, a);
    hide EntriesOwned, OnTime, OneClaimPerId;
    forall g | g in t.handlers && Current(t, g) ensures Carried(s, t, g) {
      assert g in s.handlers && Current(s, g);
    }
    CarriedClaimsKeepInv(s, t);
  }

  lemma OtherStepsKeepTime(s: State, a: Action)
    requires OnTime(s) && !a.EnterLock? && !a.Finish?
    ensures OnTime(Step(s, a))
  {}

  lemma OtherStepsKeepOwners(s: State, a: Action)
    requires EntriesOwned(s) && !a.EnterLock? && !a.Finish?
    ensures EntriesOwned(Step(s, a))
  {
    OwnersStay(s, Step(s, a));
  }

  lemma StepKeepsInv(s: State, a: Action)
    requires Inv(s)
    ensures Inv(Step(s, a))
  {
    match a
    case EnterLock(h) =>
      if h in s.handlers && s.handlers[h].phase.ReadClock? {
        if s.handlers[h].id in Evict(s.deliveries, s.handlers[h].claimTime) {
          TurnAwayKeepsInv(s, h);
        } else {
          AdmitKeepsInv(s, h);
        }
      }
    case Finish(h) => if h in s.handlers && s.handlers[h].phase.Sending? { FinishKeepsInv(s, h); }
    case _ => OtherStepsKeepInv(s, a);
  }

  lemma {:induction false} RunKeepsInv(s: State, actions: seq<Action>)
    requires Inv(s)
    ensures Inv(Run(s, actions))
    decreases |actions|
  {
    if actions != [] {
      StepKeepsInv(s, actions[0]);
      RunKeepsInv(Step(s, actions[0]), actions[1..]);
    }
  }

  // --- Main results ------------------------------------------------------------------------------------

  /** At most one handler per delivery id with a claim of the last 24 hours is in flight or has reached someone. */
  lemma AtMostOneRelayPerDelivery(clock: int, recipients: nat, actions: seq<Action>, g: nat, h: nat)
    requires var s := Run(Start(clock, recipients), actions);
             && g in s.handlers && h in s.handlers && s.handlers[g].id == s.handlers[h].id
             && HoldsClaim(s.handlers[g]) && s.clock - s.handlers[g].claimTime <= NANOSECOND_DAY
             && HoldsClaim(s.handlers[h]) && s.clock - s.handlers[h].claimTime <= NANOSECOND_DAY
    ensures g == h
  {
    RunKeepsInv(Start(clock, recipients), actions);
  }

  /** A request is turned away only by another one that is in flight or got through, and by any such current one. */
  lemma TurnedAwayByAClaim(clock: int, recipients: nat, actions: seq<Action>, h: nat)
    requires var s := Run(Start(clock, recipients), actions); h in s.handlers && s.handlers[h].phase.ReadClock?
    ensures var s := Run(Start(clock, recipients), actions);
            var turnedAway := Step(s, EnterLock(h)).handlers[h].phase.WasDuplicate?;
            && (turnedAway ==> exists g :: g != h && Owns(s, g, s.handlers[h].id))
            && (forall g :: g in s.handlers && Current(s, g) && s.handlers[g].id == s.handlers[h].id ==> turnedAway)
  {
    RunKeepsInv(Start(clock, recipients), actions);
    var s := Run(Start(clock, recipients), actions);
    if s.handlers[h].id in s.deliveries {
      var g :| Owns(s, g, s.handlers[h].id);
      assert g != h;
    }
  }

  /** In every run, a request is admitted when every other request for its id was turned away or failed to reach anyone. */
  lemma FailedDeliveryIsAdmittedAgain(clock: int, recipients: nat, actions: seq<Action>, h: nat)
    requires var s := Run(Start(clock, recipients), actions);
             && h in s.handlers && s.handlers[h].phase.ReadClock?
             && forall g :: g in s.handlers && s.handlers[g].id == s.handlers[h].id ==> !HoldsClaim(s.handlers[g])
    ensures var s := Run(Start(clock, recipients), actions);
            Step(s, EnterLock(h)).handlers[h].phase == Sending(0, 0)
  {
    TurnedAwayByAClaim(clock, recipients, actions, h);
  }
}
