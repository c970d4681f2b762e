/**
 The permission cache in front of the tenant membership table.

 A check takes a cached entry that has not expired, or reads the member's role and caches it for
 five minutes. Membership changes are made elsewhere and are followed by `InvalidateUser`. The
 mutex covers each access to the map, not a whole check, so the read and the write of one check
 are separate steps here.
 */
module Rbac {
  import opened Common

  /** The text form of a UUID. */
  type Uuid = s: string | |s| == 36 witness seq(36, _ => '0')

  datatype Member = Member(role: string, inactive: bool)

  type Membership = map<(Uuid, Uuid), Member>

  datatype Entry = Entry(role: string, perms: seq<string>, expiresAt: int)

  type Cache = map<string, Entry>

  /** The permissions of each role. */
  type RoleTable = map<string, seq<string>>

  const TTL := 300

  function CacheKey(tenant: Uuid, user: Uuid): string {
    tenant + ":" + user
  }

  lemma CacheKeyIsInjective(t: Uuid, u: Uuid, t': Uuid, u': Uuid)
    ensures CacheKey(t, u) == CacheKey(t', u') ==> t == t' && u == u'
  {
    assert CacheKey(t, u)[..36] == t && CacheKey(t, u)[37..] == u;
    assert CacheKey(t', u')[..36] == t' && CacheKey(t', u')[37..] == u';
  }

  function LookupRole(members: Membership, tenant: Uuid, user: Uuid): Option<string> {
    if (tenant, user) in members && !members[(tenant, user)].inactive then Some(members[(tenant, user)].role) else None
  }

  function PermissionsForRole(roles: RoleTable, role: string): seq<string> {
    if role in roles then roles[role] else []
  }

  /** The outcome of resolving a member, whichever question is then asked about it. */
  datatype Resolved = Resolved(role: string, perms: seq<string>) | NotAMember | LookupFailed

  /** What the membership table itself says. */
  function Direct(members: Membership, roles: RoleTable, tenant: Uuid, user: Uuid): Resolved {
    match LookupRole(members, tenant, user)
    case Some(role) => Resolved(role, PermissionsForRole(roles, role))
    case None => NotAMember
  }

  predicate Hit(cache: Cache, key: string, now: int) {
    key in cache && now <= cache[key].expiresAt
  }

  /** What a check answers; `reachable` says whether a database lookup would succeed. */
  function Answer(s: State, tenant: Uuid, user: Uuid, reachable: bool): Resolved {
    var key := CacheKey(tenant, user);
    if Hit(s.cache, key, s.now) then Resolved(s.cache[key].role, s.cache[key].perms)
    else if reachable then Direct(s.members, s.roles, tenant, user)
    else LookupFailed
  }

  /** The cache after a check. */
  function Refilled(s: State, tenant: Uuid, user: Uuid, reachable: bool): Cache {
    var key := CacheKey(tenant, user);
    var answer := Answer(s, tenant, user, reachable);
    if Hit(s.cache, key, s.now) || !answer.Resolved? then s.cache
    else s.cache[key := Entry(answer.role, answer.perms, s.now + TTL)]
  }

  /** A role read from the table by a check that has not cached it yet. */
  datatype Reading = Reading(tenant: Uuid, user: Uuid, role: string, perms: seq<string>, readAt: int)

  /** The clock, the two tables, the cache, and the checks between their read and their write; `latency` bounds that gap. */
  datatype State = State(
    now: int, members: Membership, roles: RoleTable, cache: Cache, inFlight: map<nat, Reading>, latency: nat)

  // --- The service -------------------------------------------------------------------------------------

  class Service {
    var members: Membership
    const roles: RoleTable
    var cache: Cache

    ghost function View(now: int): State
      reads this
    {
      State(now, members, roles, cache, map[], 0)
    }

    /** The shared part of every question: the cache, or the table and then the cache. */
    method Resolve(tenant: Uuid, user: Uuid, now: int, reachable: bool) returns (r: Resolved)
      modifies this`cache
      ensures r == Answer(old(View(now)), tenant, user, reachable)
      ensures cache == Refilled(old(View(now)), tenant, user, reachable)
    {
      hide CacheKey;
      var key := CacheKey(tenant, user);
      if key in cache && !(now > cache[key].expiresAt) {
        return Resolved(cache[key].role, cache[key].perms);
      }
      if !reachable {
        return LookupFailed;
      }
      var role := LookupRole(members, tenant, user);
      if role.None? {
        return NotAMember;
      }
      var perms := PermissionsForRole(roles, role.value);
      cache := cache[key := Entry(role.value, perms, now + TTL)];
      return Resolved(role.value, perms);
    }

    /** None is an error; a user who is no member has no permission. */
    method HasPermission(tenant: Uuid, user: Uuid, permission: string, now: int, reachable: bool) returns (has: Option<bool>)
      modifies this`cache
      ensures cache == Refilled(old(View(now)), tenant, user, reachable)
      ensures match Answer(old(View(now)), tenant, user, reachable)
              case Resolved(_, perms) => has == Some(permission in perms)
              case NotAMember => has == Some(false)
              case LookupFailed => has == None
      ensures CacheKey(tenant, user) !in old(cache) ==>
                has == if reachable then Some(IsGranted(old(View(now)), tenant, user, permission)) else None
    {
      UncachedChecksGrantExactlyTheRows(View(now), tenant, user, permission, reachable);
      hide Answer, Refilled;
      var r := Resolve(tenant, user, now, reachable);
      match r {
        case LookupFailed => return None;
        case NotAMember => return Some(false);
        case Resolved(_, perms) =>
          for k := 0 to |perms|
            invariant permission !in perms[..k]
          {
            if perms[k] == permission {
              return Some(true);
            }
            assert perms[..k + 1] == perms[..k] + [perms[k]];
          }
          assert perms[..|perms|] == perms;
          return Some(false);
      }
    }

    method GetRole(tenant: Uuid, user: Uuid, now: int, reachable: bool) returns (role: Option<string>)
      modifies this`cache
      ensures cache == Refilled(old(View(now)), tenant, user, reachable)
      ensures match Answer(old(View(now)), tenant, user, reachable)
              case Resolved(r, _) => role == Some(r)
              case _ => role == None
    {
      hide Answer, Refilled;
      var r := Resolve(tenant, user, now, reachable);
      return if r.Resolved? then Some(r.role) else None;
    }

    method GetPermissions(tenant: Uuid, user: Uuid, now: int, reachable: bool) returns (perms: Option<seq<string>>)
      modifies this`cache
      ensures cache == Refilled(old(View(now)), tenant, user, reachable)
      ensures match Answer(old(View(now)), tenant, user, reachable)
              case Resolved(_, p) => perms == Some(p)
              case NotAMember => perms == Some([])
              case LookupFailed => perms == None
    {
      hide Answer, Refilled;
      var r := Resolve(tenant, user, now, reachable);
      return match r case Resolved(_, p) => Some(p) case NotAMember => Some([]) case LookupFailed => None;
    }

    method InvalidateUser(tenant: Uuid, user: Uuid)
      modifies this`cache
      ensures cache == old(cache) - {CacheKey(tenant, user)}
    {
      cache := cache - {CacheKey(tenant, user)};
    }
  }

  /** Without a cached entry a check grants exactly what the rows grant. */
  lemma UncachedChecksGrantExactlyTheRows(s: State, tenant: Uuid, user: Uuid, permission: string, reachable: bool)
    ensures CacheKey(tenant, user) !in s.cache ==>
              var answer := Answer(s, tenant, user, reachable);
              && (answer == LookupFailed <==> !reachable)
              && (reachable ==> (answer.Resolved? && permission in answer.perms <==> IsGranted(s, tenant, user, permission)))
  {
    hide CacheKey;
  }

  // --- Runs -------------------------------------------------------------------------------------------------

  datatype Action =
    | Advance(delta: nat)
    | Change(tenant: Uuid, user: Uuid, member: Option<Member>)
    | Invalidate(tenant: Uuid, user: Uuid)
    | Lookup(call: nat, tenant: Uuid, user: Uuid)
    | Store(call: nat)

  /** The runs considered: a check writes within `latency` of its read. */
  predicate Timely(s: State, delta: nat) {
    forall c :: c in s.inFlight ==> s.now + delta <= s.inFlight[c].readAt + s.latency
  }

  /** A check that finds no valid entry reads the role of a member; of anybody else there is nothing to cache. */
  predicate Misses(s: State, tenant: Uuid, user: Uuid) {
    !Hit(s.cache, CacheKey(tenant, user), s.now) && LookupRole(s.members, tenant, user).Some?
  }

  function Step(s: State, a: Action): State {
    match a
    case Advance(delta) => if Timely(s, delta) then s.(now := s.now + delta) else s
    case Change(tenant, user, None) => s.(members := s.members - {(tenant, user)})
    case Change(tenant, user, Some(member)) => s.(members := s.members[(tenant, user) := member])
    case Invalidate(tenant, user) => s.(cache := s.cache - {CacheKey(tenant, user)})
    case Lookup(call, tenant, user) =>
      if call !in s.inFlight && Misses(s, tenant, user) then
        var role := LookupRole(s.members, tenant, user).value;
        s.(inFlight := s.inFlight[call := Reading(tenant, user, role, PermissionsForRole(s.roles, role), s.now)])
      else s
    case Store(call) =>
      if call in s.inFlight then
        var r := s.inFlight[call];
        s.(cache := s.cache[CacheKey(r.tenant, r.user) := Entry(r.role, r.perms, s.now + TTL)], inFlight := s.inFlight - {call})
      else s
  }

  function Run(s: State, actions: seq<Action>): State {
    if actions == [] then s else Step(Run(s, actions[..|actions| - 1]), actions[|actions| - 1])
  }

  ghost predicate Fresh(s: State) {
    s.cache == map[] && s.inFlight == map[]
  }

  /** A check that nothing interrupts is the two steps in a row. */
  lemma UninterruptedCheck(s: State, call: nat, tenant: Uuid, user: Uuid)
    requires call !in s.inFlight
    ensures Step(Step(s, Lookup(call, tenant, user)), Store(call)) == s.(cache := Refilled(s, tenant, user, true))
  {
    hide CacheKey, PermissionsForRole, LookupRole;
    var next := Step(s, Lookup(call, tenant, user));
    if Misses(s, tenant, user) {
      assert next.inFlight - {call} == s.inFlight;
    }
  }

  // --- Coherence ---------------------------------------------------------------------------------------------

  /** A read role is what the table says now. */
  predicate Current(s: State, r: Reading) {
    Direct(s.members, s.roles, r.tenant, r.user) == Resolved(r.role, r.perms)
  }

  predicate IsOf(r: Reading, tenant: Uuid, user: Uuid) {
    r.tenant == tenant && r.user == user
  }

  /** No check of this member is about to cache an outdated role. */
  ghost predicate NothingOutdatedInFlight(s: State, tenant: Uuid, user: Uuid) {
    forall c :: c in s.inFlight && IsOf(s.inFlight[c], tenant, user) ==> Current(s, s.inFlight[c])
  }

  /** The entry of a member, expired or not, and what is in flight for it say what the table says. */
  ghost predicate Agrees(s: State, tenant: Uuid, user: Uuid) {
    var key := CacheKey(tenant, user);
    && (key in s.cache ==> Direct(s.members, s.roles, tenant, user) == Resolved(s.cache[key].role, s.cache[key].perms))
    && NothingOutdatedInFlight(s, tenant, user)
  }

  predicate Changes(a: Action, tenant: Uuid, user: Uuid) {
    a.Change? && a.tenant == tenant && a.user == user
  }

  /** The key of the member a step is about, if any, is another one's key or the same member. */
  lemma KeysApart(s: State, a: Action, tenant: Uuid, user: Uuid)
    ensures (a.Invalidate? || a.Lookup?) && CacheKey(a.tenant, a.user) == CacheKey(tenant, user) ==> a.tenant == tenant && a.user == user
    ensures a.Store? && a.call in s.inFlight && CacheKey(s.inFlight[a.call].tenant, s.inFlight[a.call].user) == CacheKey(tenant, user) ==>
              IsOf(s.inFlight[a.call], tenant, user)
  {
    if a.Invalidate? || a.Lookup? {
      CacheKeyIsInjective(a.tenant, a.user, tenant, user);
    }
    if a.Store? && a.call in s.inFlight {
      CacheKeyIsInjective(s.inFlight[a.call].tenant, s.inFlight[a.call].user, tenant, user);
    }
  }

  lemma StepKeepsAgrees(s: State, a: Action, tenant: Uuid, user: Uuid)
    requires Agrees(s, tenant, user) && !Changes(a, tenant, user)
    ensures Agrees(Step(s, a), tenant, user)
  {
    KeysApart(s, a, tenant, user);
    hide CacheKey, PermissionsForRole;
  }

  lemma {:induction false} RunKeepsAgrees(s: State, actions: seq<Action>, tenant: Uuid, user: Uuid)
    requires Agrees(s, tenant, user) && forall a :: a in actions ==> !Changes(a, tenant, user)
    ensures Agrees(Run(s, actions), tenant, user)
  {
    if actions != [] {
      var last := |actions| - 1;
      RunKeepsAgrees(s, actions[..last], tenant, user);
      hide Agrees, Step;
      StepKeepsAgrees(Run(s, actions[..last]), actions[last], tenant, user);
    }
  }

  /** A check is answered as by the table, or not at all. */
  predicate AnswersDirectly(s: State, tenant: Uuid, user: Uuid, reachable: bool) {
    var answer := Answer(s, tenant, user, reachable);
    answer == Direct(s.members, s.roles, tenant, user) || (!reachable && answer == LookupFailed)
  }

  /** From here on, until the member changes again, every check of it is answered as by the table. */
  ghost predicate InEffect(s: State, tenant: Uuid, user: Uuid) {
    forall actions, reachable :: (forall a :: a in actions ==> !Changes(a, tenant, user)) ==>
      AnswersDirectly(Run(s, actions), tenant, user, reachable)
  }

  /** An outdated role that is cached after the invalidation is served. */
  lemma OutdatedReadingIsServed(s: State, call: nat)
    requires call in s.inFlight && !Current(s, s.inFlight[call])
    ensures var r := s.inFlight[call]; !AnswersDirectly(Step(s, Store(call)), r.tenant, r.user, true)
  {
    hide CacheKey;
  }

  /** An invalidation puts a change into effect at once if and only if no check in flight still holds an outdated role. */
  lemma InvalidationTakesEffect(s: State, tenant: Uuid, user: Uuid)
    ensures InEffect(Step(s, Invalidate(tenant, user)), tenant, user) <==> NothingOutdatedInFlight(s, tenant, user)
  {
    var next := Step(s, Invalidate(tenant, user));
    assert next.inFlight == s.inFlight && next.members == s.members && next.roles == s.roles;
    if NothingOutdatedInFlight(s, tenant, user) {
      assert Agrees(next, tenant, user);
      forall actions, reachable | forall a :: a in actions ==> !Changes(a, tenant, user)
        ensures AnswersDirectly(Run(next, actions), tenant, user, reachable)
      {
        RunKeepsAgrees(next, actions, tenant, user);
        hide Run, CacheKey, Direct;
      }
    } else {
      var c :| c in s.inFlight && IsOf(s.inFlight[c], tenant, user) && !Current(s, s.inFlight[c]);
      OutdatedReadingIsServed(next, c);
      var store := Store(c);
      RunOfOne(next, store);
      hide Run, Step, AnswersDirectly, Current;
      assert forall a :: a in [store] ==> !Changes(a, tenant, user);
      assert !AnswersDirectly(Run(next, [store]), tenant, user, true);
    }
  }

  lemma RunOfOne(s: State, a: Action)
    ensures Run(s, [a]) == Step(s, a)
  {
    assert [a][..0] == [];
    hide Step;
    assert Run(s, [a]) == Step(Run(s, [a][..0]), a);
  }

  /** The members with a change that is not in effect yet. */
  ghost function Pending(s: State, actions: seq<Action>): set<(Uuid, Uuid)> {
    if actions == [] then {}
    else
      var before := actions[..|actions| - 1];
      var rest := Pending(s, before);
      match actions[|actions| - 1]
      case Change(tenant, user, _) => rest + {(tenant, user)}
      case Invalidate(tenant, user) => if NothingOutdatedInFlight(Run(s, before), tenant, user) then rest - {(tenant, user)} else rest
      case _ => rest
  }

  lemma {:induction false} SettledMembersAgree(s: State, actions: seq<Action>, tenant: Uuid, user: Uuid)
    requires Fresh(s) && (tenant, user) !in Pending(s, actions)
    ensures Agrees(Run(s, actions), tenant, user)
  {
    if actions != [] {
      var before, a := actions[..|actions| - 1], actions[|actions| - 1];
      var middle := Run(s, before);
      if (tenant, user) in Pending(s, before) {
        InvalidationSettles(middle, tenant, user);
      } else {
        SettledMembersAgree(s, before, tenant, user);
        hide Agrees, Step, NothingOutdatedInFlight;
        StepKeepsAgrees(middle, a, tenant, user);
      }
    }
  }

  lemma InvalidationSettles(s: State, tenant: Uuid, user: Uuid)
    requires NothingOutdatedInFlight(s, tenant, user)
    ensures Agrees(Step(s, Invalidate(tenant, user)), tenant, user)
  {
    hide CacheKey;
  }

  /** In every interleaving, a member whose changes are in effect is answered as by the table, whatever is pending for others. */
  lemma InvalidatedAnswersAreDirect(s: State, actions: seq<Action>, tenant: Uuid, user: Uuid, reachable: bool)
    requires Fresh(s) && (tenant, user) !in Pending(s, actions)
    ensures AnswersDirectly(Run(s, actions), tenant, user, reachable)
  {
    SettledMembersAgree(s, actions, tenant, user);
    hide Run, CacheKey, Direct;
  }

  // --- What the answers mean ------------------------------------------------------------------------------------

  /** The membership row makes the user an active member, whose role has the permission. */
  predicate IsGranted(s: State, tenant: Uuid, user: Uuid, permission: string) {
    && IsActiveMember(s, tenant, user)
    && s.members[(tenant, user)].role in s.roles
    && permission in s.roles[s.members[(tenant, user)].role]
  }

  predicate IsActiveMember(s: State, tenant: Uuid, user: Uuid) {
    (tenant, user) in s.members && !s.members[(tenant, user)].inactive
  }

  /** Whenever a member's changes are in effect, a check grants only what the rows grant, and all of it if the database answers. */
  lemma SettledChecksGrantExactlyTheRows(s: State, actions: seq<Action>, tenant: Uuid, user: Uuid, permission: string, reachable: bool)
    requires Fresh(s) && (tenant, user) !in Pending(s, actions)
    ensures var end := Run(s, actions);
            var answer := Answer(end, tenant, user, reachable);
            && (answer.Resolved? && permission in answer.perms ==> IsGranted(end, tenant, user, permission))
            && (reachable ==> (answer.Resolved? && permission in answer.perms <==> IsGranted(end, tenant, user, permission)))
  {
    InvalidatedAnswersAreDirect(s, actions, tenant, user, reachable);
    hide Run, Answer;
  }

  /** Likewise the role and the list of permissions are those of the rows, and a non-member is one who has no active row. */
  lemma SettledRolesAreTheRows(s: State, actions: seq<Action>, tenant: Uuid, user: Uuid, reachable: bool)
    requires Fresh(s) && (tenant, user) !in Pending(s, actions)
    ensures var end := Run(s, actions);
            var answer := Answer(end, tenant, user, reachable);
            && (answer.Resolved? ==>
                  && IsActiveMember(end, tenant, user) && answer.role == end.members[(tenant, user)].role
                  && (answer.role in end.roles ==> answer.perms == end.roles[answer.role])
                  && (answer.role !in end.roles ==> answer.perms == []))
            && (answer == NotAMember ==> !IsActiveMember(end, tenant, user))
            && (reachable ==> (answer.Resolved? <==> IsActiveMember(end, tenant, user)) && answer != LookupFailed)
  {
    InvalidatedAnswersAreDirect(s, actions, tenant, user, reachable);
    hide Run, Answer;
  }

  /** A cached role is served for five minutes, the last instant included, unless something drops it. */
  lemma EntriesLiveFiveMinutes(s: State, call: nat, later: State)
    requires call in s.inFlight && later.cache == Step(s, Store(call)).cache
    ensures var r := s.inFlight[call]; Hit(later.cache, CacheKey(r.tenant, r.user), later.now) <==> later.now <= s.now + 300
  {
    hide CacheKey;
  }

  // --- Staleness ------------------------------------------------------------------------------------------------

  /** At some moment of the run, not before `since`, the table said this. */
  ghost predicate Said(s: State, actions: seq<Action>, tenant: Uuid, user: Uuid, role: string, perms: seq<string>, since: int) {
    exists n :: 0 <= n <= |actions| && SaidAt(Run(s, actions[..n]), tenant, user, Resolved(role, perms), since)
  }

  predicate SaidAt(at: State, tenant: Uuid, user: Uuid, answer: Resolved, since: int) {
    at.now >= since && Direct(at.members, at.roles, tenant, user) == answer
  }

  lemma SaidStays(s: State, before: seq<Action>, actions: seq<Action>, tenant: Uuid, user: Uuid, role: string, perms: seq<string>, since: int)
    requires before <= actions && Said(s, before, tenant, user, role, perms, since)
    ensures Said(s, actions, tenant, user, role, perms, since)
  {
    hide Run, SaidAt;
    var n :| 0 <= n <= |before| && SaidAt(Run(s, before[..n]), tenant, user, Resolved(role, perms), since);
    assert actions[..n] == before[..n];
  }

  /** A reading in flight was true when it was taken, and is not older than the latency. */
  ghost predicate ReadingSaid(s: State, actions: seq<Action>, call: nat) {
    var end := Run(s, actions);
    call in end.inFlight ==>
      var r := end.inFlight[call];
      end.now <= r.readAt + end.latency && Said(s, actions, r.tenant, r.user, r.role, r.perms, r.readAt)
  }

  lemma {:induction false} LatencyIsConstant(s: State, actions: seq<Action>)
    ensures Run(s, actions).latency == s.latency
  {
    if actions != [] {
      LatencyIsConstant(s, actions[..|actions| - 1]);
    }
  }

  lemma {:induction false} ReadingsWereSaid(s: State, actions: seq<Action>, call: nat)
    requires Fresh(s)
    ensures ReadingSaid(s, actions, call)
  {
    if actions != [] {
      var before, a := actions[..|actions| - 1], actions[|actions| - 1];
      var middle, end := Run(s, before), Run(s, actions);
      ReadingsWereSaid(s, before, call);
      ReadingAfterStep(middle, a, call);
      assert end == Step(middle, a);
      hide Run, Step, SaidAt;
      if call in end.inFlight {
        var r := end.inFlight[call];
        if call in middle.inFlight && middle.inFlight[call] == r {
          SaidStays(s, before, actions, r.tenant, r.user, r.role, r.perms, r.readAt);
        } else {
          assert actions[..|before|] == before;
          assert SaidAt(Run(s, actions[..|before|]), r.tenant, r.user, Resolved(r.role, r.perms), r.readAt);
        }
      }
    }
  }

  /** A step keeps a reading in time, or takes it from the table as it stands. */
  lemma ReadingAfterStep(s: State, a: Action, call: nat)
    ensures var t := Step(s, a);
            call in t.inFlight ==>
              var r := t.inFlight[call];
              || (call in s.inFlight && s.inFlight[call] == r && (s.now <= r.readAt + s.latency ==> t.now <= r.readAt + t.latency))
              || (SaidAt(s, r.tenant, r.user, Resolved(r.role, r.perms), r.readAt) && t.now == r.readAt)
  {
    hide CacheKey, PermissionsForRole;
  }

  /** A step leaves an entry alone, drops it, or writes it from a reading. */
  lemma EntryAfterStep(s: State, a: Action, tenant: Uuid, user: Uuid)
    requires CacheKey(tenant, user) in Step(s, a).cache
    ensures var entry := Step(s, a).cache[CacheKey(tenant, user)];
            || (CacheKey(tenant, user) in s.cache && s.cache[CacheKey(tenant, user)] == entry)
            || (a.Store? && a.call in s.inFlight && IsOf(s.inFlight[a.call], tenant, user)
                && entry == Entry(s.inFlight[a.call].role, s.inFlight[a.call].perms, s.now + TTL))
  {
    KeysApart(s, a, tenant, user);
    hide CacheKey;
  }

  ghost predicate EntrySaid(s: State, actions: seq<Action>, tenant: Uuid, user: Uuid, entry: Entry) {
    Said(s, actions, tenant, user, entry.role, entry.perms, entry.expiresAt - TTL - s.latency)
  }

  lemma {:induction false} EntriesWereSaid(s: State, actions: seq<Action>, tenant: Uuid, user: Uuid)
    requires Fresh(s) && CacheKey(tenant, user) in Run(s, actions).cache
    ensures EntrySaid(s, actions, tenant, user, Run(s, actions).cache[CacheKey(tenant, user)])
  {
    if actions != [] {
      var before, a := actions[..|actions| - 1], actions[|actions| - 1];
      var middle := Run(s, before);
      var entry := Run(s, actions).cache[CacheKey(tenant, user)];
      EntryAfterStep(middle, a, tenant, user);
      if CacheKey(tenant, user) in middle.cache && middle.cache[CacheKey(tenant, user)] == entry {
        EntriesWereSaid(s, before, tenant, user);
      } else {
        ReadingsWereSaid(s, before, a.call);
        LatencyIsConstant(s, before);
        var r := middle.inFlight[a.call];
        hide Run, Step, CacheKey, SaidAt;
        SaidIsMonotone(s, before, tenant, user, entry.role, entry.perms, r.readAt, entry.expiresAt - TTL - s.latency);
      }
      SaidStays(s, before, actions, tenant, user, entry.role, entry.perms, entry.expiresAt - TTL - s.latency);
    }
  }

  lemma SaidIsMonotone(s: State, actions: seq<Action>, tenant: Uuid, user: Uuid, role: string, perms: seq<string>, since: int, earlier: int)
    requires earlier <= since && Said(s, actions, tenant, user, role, perms, since)
    ensures Said(s, actions, tenant, user, role, perms, earlier)
  {
    hide Run;
    var n :| 0 <= n <= |actions| && SaidAt(Run(s, actions[..n]), tenant, user, Resolved(role, perms), since);
    assert SaidAt(Run(s, actions[..n]), tenant, user, Resolved(role, perms), earlier);
  }

  /**
   In every interleaving and without any invalidation, an answer is what the table said at some
   moment of the run within the last TTL plus latency; with no latency, within the last TTL.
   */
  lemma AnswersAreRecent(s: State, actions: seq<Action>, tenant: Uuid, user: Uuid, reachable: bool)
    requires Fresh(s)
    ensures var end := Run(s, actions);
            var answer := Answer(end, tenant, user, reachable);
            || answer == LookupFailed
            || exists n :: 0 <= n <= |actions| && SaidAt(Run(s, actions[..n]), tenant, user, answer, end.now - TTL - s.latency)
  {
    hide Run, Step, CacheKey;
    var end := Run(s, actions);
    var key := CacheKey(tenant, user);
    var answer := Answer(end, tenant, user, reachable);
    if Hit(end.cache, key, end.now) {
      var entry := end.cache[key];
      EntriesWereSaid(s, actions, tenant, user);
      SaidIsMonotone(s, actions, tenant, user, entry.role, entry.perms, entry.expiresAt - TTL - s.latency, end.now - TTL - s.latency);
      assert answer == Resolved(entry.role, entry.perms);
    } else if reachable {
      assert actions[..|actions|] == actions;
      assert SaidAt(Run(s, actions[..|actions|]), tenant, user, answer, end.now - TTL - s.latency);
    }
  }

  /** Absence is never cached: a user reported as no member is none at that very moment. */
  lemma AbsenceIsNeverStale(s: State, tenant: Uuid, user: Uuid, reachable: bool)
    ensures Answer(s, tenant, user, reachable) == NotAMember ==> LookupRole(s.members, tenant, user) == None
  {}
}
