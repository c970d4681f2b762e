/**
 A batch of RSVP reminders: candidates are filtered by request, throttle window and contact data,
 and the eligible ones are claimed, dispatched or skipped one after the other. Everybody who was
 asked for ends up either among the messages or among the skipped.
 */
module ReminderBatch {
  import opened Common
  import Delivery
  import Messaging
  import Text

  datatype Candidate = Candidate(guest: nat, phone: Option<string>, email: Option<string>, lastReminderAt: Option<int>)

  datatype Reason = RecentlyReminded | NoPhone | NoEmail | NotACandidate | ContactMissing | InvitationMissing

  datatype Skip = Skip(guest: nat, reason: Reason)

  datatype Options = Options(force: bool, channel: Messaging.Channel, now: int)

  // --- Filtering ------------------------------------------------------------------------------------------

  /** Without a list everybody is requested. */
  predicate Requested(c: Candidate, ids: seq<nat>) {
    ids == [] || c.guest in ids
  }

  /** Why a candidate is left out, if it is. */
  function Objection(c: Candidate, o: Options): Option<Reason> {
    if !o.force && c.lastReminderAt.Some? && o.now - c.lastReminderAt.value < DAY then Some(RecentlyReminded)
    else if o.channel == Messaging.WhatsApp && Messaging.WhatsAppNumber(Messaging.OrEmpty(c.phone)).None? then Some(NoPhone)
    else if o.channel == Messaging.Email && Text.Trim(Messaging.OrEmpty(c.email)) == "" then Some(NoEmail)
    else None
  }

  function Eligible(candidates: seq<Candidate>, ids: seq<nat>, o: Options): seq<Candidate> {
    if candidates == [] then []
    else
      var last := |candidates| - 1;
      var rest := Eligible(candidates[..last], ids, o);
      if Requested(candidates[last], ids) && Objection(candidates[last], o).None? then rest + [candidates[last]] else rest
  }

  function Objected(candidates: seq<Candidate>, ids: seq<nat>, o: Options): seq<Skip> {
    if candidates == [] then []
    else
      var last := |candidates| - 1;
      var c := candidates[last];
      var rest := Objected(candidates[..last], ids, o);
      if Requested(c, ids) && Objection(c, o).Some? then rest + [Skip(c.guest, Objection(c, o).value)] else rest
  }

  predicate IsCandidate(candidates: seq<Candidate>, guest: nat) {
    exists k :: 0 <= k < |candidates| && candidates[k].guest == guest
  }

  /** Listed guests who are no candidates, as often as they are listed. */
  function Strangers(candidates: seq<Candidate>, ids: seq<nat>): seq<nat> {
    if ids == [] then []
    else
      var last := |ids| - 1;
      var rest := Strangers(candidates, ids[..last]);
      if IsCandidate(candidates, ids[last]) then rest else rest + [ids[last]]
  }

  function AsStrangers(guests: seq<nat>): (skips: seq<Skip>)
    ensures |skips| == |guests| && forall k :: 0 <= k < |skips| ==> skips[k] == Skip(guests[k], NotACandidate)
  {
    seq(|guests|, k requires 0 <= k < |guests| => Skip(guests[k], NotACandidate))
  }

  function RequestedGuests(candidates: seq<Candidate>, ids: seq<nat>): seq<nat> {
    if candidates == [] then []
    else
      var last := |candidates| - 1;
      var rest := RequestedGuests(candidates[..last], ids);
      if Requested(candidates[last], ids) then rest + [candidates[last].guest] else rest
  }

  /** Everybody the caller asked for. */
  function Targets(candidates: seq<Candidate>, ids: seq<nat>): seq<nat> {
    RequestedGuests(candidates, ids) + Strangers(candidates, ids)
  }

  function GuestsOf(candidates: seq<Candidate>): (guests: seq<nat>)
    ensures |guests| == |candidates| && forall k :: 0 <= k < |guests| ==> guests[k] == candidates[k].guest
  {
    seq(|candidates|, k requires 0 <= k < |candidates| => candidates[k].guest)
  }

  function SkippedGuests(skips: seq<Skip>): (guests: seq<nat>)
    ensures |guests| == |skips| && forall k :: 0 <= k < |guests| ==> guests[k] == skips[k].guest
  {
    seq(|skips|, k requires 0 <= k < |skips| => skips[k].guest)
  }

  function RowGuests(rows: seq<Messaging.Row>): (guests: seq<nat>)
    ensures |guests| == |rows| && forall k :: 0 <= k < |guests| ==> guests[k] == rows[k].guest
  {
    seq(|rows|, k requires 0 <= k < |rows| => rows[k].guest)
  }

  method FilterCandidates(candidates: seq<Candidate>, ids: seq<nat>, o: Options)
    returns (eligible: seq<Candidate>, skipped: seq<Skip>)
    ensures eligible == Eligible(candidates, ids, o)
    ensures skipped == Objected(candidates, ids, o) + AsStrangers(Strangers(candidates, ids))
  {
    hide Objection;
    var requested: set<nat> := {};
    for k := 0 to |ids|
      invariant forall id :: id in requested <==> id in ids[..k]
    {
      assert ids[..k + 1] == ids[..k] + [ids[k]];
      requested := requested + {ids[k]};
    }
    assert ids[..|ids|] == ids;

    var known: set<nat> := {};
    eligible, skipped := [], [];
    for n := 0 to |candidates|
      invariant forall g :: g in known <==> IsCandidate(candidates[..n], g)
      invariant eligible == Eligible(candidates[..n], ids, o)
      invariant skipped == Objected(candidates[..n], ids, o)
    {
      OneMoreCandidate(candidates, n);
      assert candidates[..n + 1][..n] == candidates[..n];
      hide IsCandidate;
      var c := candidates[n];
      known := known + {c.guest};
      if |ids| > 0 && c.guest !in requested {
        continue;
      }
      var objection := Objection(c, o);
      if objection.Some? {
        skipped := skipped + [Skip(c.guest, objection.value)];
        continue;
      }
      eligible := eligible + [c];
    }
    assert candidates[..|candidates|] == candidates;
    skipped := AddStrangers(candidates, ids, known, skipped);
  }

  method AddStrangers(ghost candidates: seq<Candidate>, ids: seq<nat>, known: set<nat>, before: seq<Skip>) returns (skipped: seq<Skip>)
    requires forall g :: g in known <==> IsCandidate(candidates, g)
    ensures skipped == before + AsStrangers(Strangers(candidates, ids))
  {
    hide IsCandidate;
    skipped := before;
    for k := 0 to |ids|
      invariant skipped == before + AsStrangers(Strangers(candidates, ids[..k]))
    {
      assert ids[..k + 1][..k] == ids[..k];
      if ids[k] !in known {
        skipped := skipped + [Skip(ids[k], NotACandidate)];
      }
    }
    assert ids[..|ids|] == ids;
  }

  lemma OneMoreCandidate(candidates: seq<Candidate>, n: nat)
    requires n < |candidates|
    ensures forall g :: IsCandidate(candidates[..n + 1], g) <==> IsCandidate(candidates[..n], g) || g == candidates[n].guest
  {
    var more := candidates[..n + 1];
    assert more[n] == candidates[n];
    forall g | IsCandidate(candidates[..n], g) ensures IsCandidate(more, g) {
      var k :| 0 <= k < n && candidates[..n][k].guest == g;
      assert more[k].guest == g;
    }
  }

  // --- The filter accounts for everybody ---------------------------------------------------------------------

  lemma GuestsAppend(a: seq<Candidate>, c: Candidate)
    ensures GuestsOf(a + [c]) == GuestsOf(a) + [c.guest]
  {}

  lemma SkippedAppend(a: seq<Skip>, b: seq<Skip>)
    ensures SkippedGuests(a + b) == SkippedGuests(a) + SkippedGuests(b)
  {}

  lemma SkippedAppendOne(a: seq<Skip>, skip: Skip)
    ensures SkippedGuests(a + [skip]) == SkippedGuests(a) + [skip.guest]
  {}

  lemma RowsAppend(a: seq<Messaging.Row>, row: Messaging.Row)
    ensures RowGuests(a + [row]) == RowGuests(a) + [row.guest]
  {}

  /** Each requested candidate is eligible or skipped, exactly once. */
  lemma {:induction false} FilterSplitsTheRequested(candidates: seq<Candidate>, ids: seq<nat>, o: Options)
    ensures multiset(GuestsOf(Eligible(candidates, ids, o))) + multiset(SkippedGuests(Objected(candidates, ids, o))) ==
              multiset(RequestedGuests(candidates, ids))
  {
    if candidates != [] {
      var last := |candidates| - 1;
      var c := candidates[last];
      hide Objection, Requested, GuestsOf, SkippedGuests;
      FilterSplitsTheRequested(candidates[..last], ids, o);
      if Requested(c, ids) && Objection(c, o).Some? {
        SkippedAppendOne(Objected(candidates[..last], ids, o), Skip(c.guest, Objection(c, o).value));
      } else if Requested(c, ids) {
        GuestsAppend(Eligible(candidates[..last], ids, o), c);
      }
    }
  }

  // --- Who is eligible, and why not -----------------------------------------------------------------------------

  /** The candidate was asked for. */
  predicate WasAskedFor(c: Candidate, ids: seq<nat>) {
    |ids| == 0 || c.guest in ids
  }

  /** The last reminder is less than 24 hours old and sending is not forced. */
  predicate IsTooSoon(c: Candidate, o: Options) {
    !o.force && c.lastReminderAt.Some? && o.now - c.lastReminderAt.value < 86400
  }

  predicate LacksPhone(c: Candidate) {
    if c.phone.Some? then Messaging.WhatsAppNumber(c.phone.value).None? else true
  }

  predicate LacksEmail(c: Candidate) {
    if c.email.Some? then Text.Trim(c.email.value) == "" else true
  }

  lemma EmptyIsNoNumber()
    ensures Messaging.WhatsAppNumber("").None? && Text.Trim("") == ""
  {
    Text.TrimOfTrimmed("");
  }

  /** A candidate is objected to for exactly these reasons, in this order. */
  lemma ObjectionsAreExact(c: Candidate, o: Options)
    ensures Objection(c, o) == Some(RecentlyReminded) <==> IsTooSoon(c, o)
    ensures Objection(c, o) == Some(NoPhone) <==> !IsTooSoon(c, o) && o.channel == Messaging.WhatsApp && LacksPhone(c)
    ensures Objection(c, o) == Some(NoEmail) <==> !IsTooSoon(c, o) && o.channel == Messaging.Email && LacksEmail(c)
    ensures Objection(c, o).Some? ==> Objection(c, o).value in {RecentlyReminded, NoPhone, NoEmail}
  {
    EmptyIsNoNumber();
    hide Messaging.WhatsAppNumber, Text.Trim;
  }

  lemma {:induction false} EligibleMembers(candidates: seq<Candidate>, ids: seq<nat>, o: Options, c: Candidate)
    ensures c in Eligible(candidates, ids, o) <==> c in candidates && Requested(c, ids) && Objection(c, o).None?
  {
    hide Objection, Requested;
    if candidates != [] {
      var last := |candidates| - 1;
      EligibleMembers(candidates[..last], ids, o, c);
      assert candidates == candidates[..last] + [candidates[last]];
    }
  }

  lemma {:induction false} ObjectedMembers(candidates: seq<Candidate>, ids: seq<nat>, o: Options, skip: Skip)
    ensures skip in Objected(candidates, ids, o) <==>
              exists c :: c in candidates && Requested(c, ids) && c.guest == skip.guest && Objection(c, o) == Some(skip.reason)
  {
    hide Objection, Requested;
    if candidates != [] {
      var last := |candidates| - 1;
      ObjectedMembers(candidates[..last], ids, o, skip);
      assert candidates == candidates[..last] + [candidates[last]];
      if Requested(candidates[last], ids) && candidates[last].guest == skip.guest && Objection(candidates[last], o) == Some(skip.reason) {
        assert candidates[last] in candidates;
      }
    }
  }

  /** Eligible are exactly the candidates asked for, not reminded too recently unless forced, and with an address on the channel. */
  lemma EligibilityIsExact(candidates: seq<Candidate>, ids: seq<nat>, o: Options, c: Candidate)
    ensures c in Eligible(candidates, ids, o) <==>
              && c in candidates && WasAskedFor(c, ids)
              && (o.force || c.lastReminderAt.None? || o.now - c.lastReminderAt.value >= 86400)
              && (o.channel == Messaging.WhatsApp ==> c.phone.Some? && Messaging.WhatsAppNumber(c.phone.value).Some?)
              && (o.channel == Messaging.Email ==> c.email.Some? && Text.Trim(c.email.value) != "")
  {
    EligibleMembers(candidates, ids, o, c);
    ObjectionsAreExact(c, o);
    hide Eligible, Objection, Messaging.WhatsAppNumber, Text.Trim;
  }

  /** And the skip list of the filter gives each of them exactly the reason that applies. */
  lemma SkipReasonsAreExact(candidates: seq<Candidate>, ids: seq<nat>, o: Options, g: nat)
    ensures var skipped := Objected(candidates, ids, o) + AsStrangers(Strangers(candidates, ids));
            && (Skip(g, RecentlyReminded) in skipped <==> exists c :: c in candidates && WasAskedFor(c, ids) && c.guest == g && IsTooSoon(c, o))
            && (Skip(g, NoPhone) in skipped <==>
                  o.channel == Messaging.WhatsApp && exists c :: c in candidates && WasAskedFor(c, ids) && c.guest == g && !IsTooSoon(c, o) && LacksPhone(c))
            && (Skip(g, NoEmail) in skipped <==>
                  o.channel == Messaging.Email && exists c :: c in candidates && WasAskedFor(c, ids) && c.guest == g && !IsTooSoon(c, o) && LacksEmail(c))
            && (Skip(g, NotACandidate) in skipped <==> g in ids && forall c :: c in candidates ==> c.guest != g)
  {
    forall c, reason ensures reason in {RecentlyReminded, NoPhone, NoEmail, NotACandidate} ==>
      (Objection(c, o) == Some(reason) <==>
        if reason == RecentlyReminded then IsTooSoon(c, o)
        else if reason == NoPhone then !IsTooSoon(c, o) && o.channel == Messaging.WhatsApp && LacksPhone(c)
        else if reason == NoEmail then !IsTooSoon(c, o) && o.channel == Messaging.Email && LacksEmail(c)
        else false)
    {
      ObjectionsAreExact(c, o);
    }
    hide Objection, IsTooSoon, LacksPhone, LacksEmail;
    forall reason ensures Skip(g, reason) in Objected(candidates, ids, o) <==>
      exists c :: c in candidates && WasAskedFor(c, ids) && c.guest == g && Objection(c, o) == Some(reason)
    {
      ObjectedMembers(candidates, ids, o, Skip(g, reason));
    }
    StrangersAreExact(candidates, ids, g);
    hide Objected, Strangers, WasAskedFor;
  }

  lemma {:induction false} StrangersAreExact(candidates: seq<Candidate>, ids: seq<nat>, g: nat)
    ensures g in Strangers(candidates, ids) <==> g in ids && forall c :: c in candidates ==> c.guest != g
    ensures forall reason :: Skip(g, reason) in AsStrangers(Strangers(candidates, ids)) <==> g in Strangers(candidates, ids) && reason == NotACandidate
  {
    if ids != [] {
      StrangersAreExact(candidates, ids[..|ids| - 1], g);
      assert ids == ids[..|ids| - 1] + [ids[|ids| - 1]];
    }
    var strangers := Strangers(candidates, ids);
    if g in strangers {
      var k :| 0 <= k < |strangers| && strangers[k] == g;
      assert AsStrangers(strangers)[k] == Skip(g, NotACandidate);
    }
  }

  // --- Order --------------------------------------------------------------------------------------------------

  /** Positions that pick `part` out of `whole`, in order. */
  ghost predicate Picks(at: seq<nat>, part: seq<nat>, whole: seq<nat>) {
    && |at| == |part|
    && (forall k :: 0 <= k < |at| ==> at[k] < |whole| && part[k] == whole[at[k]])
    && (forall j, k :: 0 <= j < k < |at| ==> at[j] < at[k])
  }

  ghost predicate IsSubsequence(part: seq<nat>, whole: seq<nat>) {
    exists at :: Picks(at, part, whole)
  }

  lemma SubsequenceGrows(part: seq<nat>, whole: seq<nat>, g: nat)
    requires IsSubsequence(part, whole)
    ensures IsSubsequence(part, whole + [g]) && IsSubsequence(part + [g], whole + [g])
  {
    var at: seq<nat> :| Picks(at, part, whole);
    assert Picks(at, part, whole + [g]);
    assert Picks(at + [|whole|], part + [g], whole + [g]);
  }

  lemma SubsequencesCompose(a: seq<nat>, b: seq<nat>, c: seq<nat>)
    requires IsSubsequence(a, b) && IsSubsequence(b, c)
    ensures IsSubsequence(a, c)
  {
    var f: seq<nat> :| Picks(f, a, b);
    var g: seq<nat> :| Picks(g, b, c);
    assert Picks(seq(|f|, k requires 0 <= k < |f| => g[f[k]]), a, c);
  }

  lemma {:induction false} EligibleKeepsOrder(candidates: seq<Candidate>, ids: seq<nat>, o: Options)
    ensures IsSubsequence(GuestsOf(Eligible(candidates, ids, o)), GuestsOf(candidates))
  {
    if candidates == [] {
      assert Picks([], GuestsOf(Eligible(candidates, ids, o)), GuestsOf(candidates));
    } else {
      var last := |candidates| - 1;
      var rest := Eligible(candidates[..last], ids, o);
      hide IsSubsequence, Objection, Requested, GuestsOf;
      EligibleKeepsOrder(candidates[..last], ids, o);
      SubsequenceGrows(GuestsOf(rest), GuestsOf(candidates[..last]), candidates[last].guest);
      assert candidates == candidates[..last] + [candidates[last]];
      GuestsAppend(candidates[..last], candidates[last]);
      GuestsAppend(rest, candidates[last]);
    }
  }

  // --- Sending ----------------------------------------------------------------------------------------------------

  /** What the 24-hour claim said. */
  datatype Claim = Claimed | Throttled | ClaimFailed

  datatype Attempt = Attempt(invitationFound: bool, claim: Claim, reply: Messaging.Reply, recorded: bool)

  /** What becomes of one eligible candidate. */
  datatype Fate = Sent(row: Messaging.Row) | SkippedFor(reason: Reason) | Broken

  function FateOf(job: Messaging.Job, c: Candidate, a: Attempt): Fate {
    if c.guest !in job.contacts then SkippedFor(ContactMissing)
    else if !a.invitationFound then SkippedFor(InvitationMissing)
    else if a.claim == Throttled then SkippedFor(RecentlyReminded)
    else if a.claim == ClaimFailed || !a.recorded then Broken
    else Sent(Messaging.AfterReply(Messaging.QueuedRow(job, c.guest), a.reply))
  }

  function MessagesOf(job: Messaging.Job, eligible: seq<Candidate>, attempts: nat -> Attempt): seq<Messaging.Row> {
    if eligible == [] then []
    else
      var last := |eligible| - 1;
      var rest := MessagesOf(job, eligible[..last], attempts);
      match FateOf(job, eligible[last], attempts(last))
      case Sent(row) => rest + [row]
      case _ => rest
  }

  function SkipsOf(job: Messaging.Job, eligible: seq<Candidate>, attempts: nat -> Attempt): seq<Skip> {
    if eligible == [] then []
    else
      var last := |eligible| - 1;
      var rest := SkipsOf(job, eligible[..last], attempts);
      match FateOf(job, eligible[last], attempts(last))
      case SkippedFor(reason) => rest + [Skip(eligible[last].guest, reason)]
      case _ => rest
  }

  predicate NothingBreaks(job: Messaging.Job, eligible: seq<Candidate>, attempts: nat -> Attempt) {
    forall k :: 0 <= k < |eligible| ==> FateOf(job, eligible[k], attempts(k)) != Broken
  }

  datatype Result = Result(messages: seq<Messaging.Row>, skipped: seq<Skip>, totalCandidates: nat, deadlinePassed: bool)

  /** One provider call for each message, in order. */
  function CallsFor(job: Messaging.Job, rows: seq<Messaging.Row>): (calls: seq<Messaging.Call>)
    ensures |calls| == |rows| && forall k :: 0 <= k < |rows| ==> calls[k] == Messaging.CallFor(job, rows[k].guest)
  {
    seq(|rows|, k requires 0 <= k < |rows| => Messaging.CallFor(job, rows[k].guest))
  }

  lemma NoCalls(job: Messaging.Job)
    ensures CallsFor(job, []) == []
  {}

  lemma OneMoreCall(job: Messaging.Job, rows: seq<Messaging.Row>, row: Messaging.Row)
    ensures CallsFor(job, rows + [row]) == CallsFor(job, rows) + [Messaging.CallFor(job, row.guest)]
  {
    hide Messaging.CallFor;
  }

  datatype BatchError = TemplateInactive | InvalidTemplate | NotConfigured | NotStored

  /** One eligible candidate: claimed, dispatched and stored, or skipped. */
  method RemindOne(service: Messaging.MessageService, job: Messaging.Job, c: Candidate, a: Attempt) returns (fate: Fate)
    requires job.channel != Messaging.Sms
    modifies service
    ensures fate == FateOf(job, c, a)
    ensures fate.Sent? ==>
              service.rows == old(service.rows) + [fate.row] && service.calls == old(service.calls) + [Messaging.CallFor(job, c.guest)]
    ensures fate.SkippedFor? ==> service.rows == old(service.rows) && service.calls == old(service.calls)
    ensures old(service.rows) <= service.rows
  {
    hide Messaging.BodyFor, Messaging.Recipient;
    if c.guest !in job.contacts {
      return SkippedFor(ContactMissing);
    }
    if !a.invitationFound {
      return SkippedFor(InvitationMissing);
    }
    match a.claim {
      case Throttled => return SkippedFor(RecentlyReminded);
      case ClaimFailed => return Broken;
      case Claimed =>
        var k := |service.rows|;
        service.rows := service.rows + [Messaging.QueuedRow(job, c.guest)];
        var ok := service.Dispatch(k, Messaging.CallFor(job, c.guest), Messaging.Attempt(true, a.reply, a.recorded));
        if !ok {
          return Broken;
        }
        return Sent(service.rows[k]);
    }
  }

  /** The whole batch, for an active or inactive template of the follow-up type or another. */
  method SendReminders(
    service: Messaging.MessageService, job: Messaging.Job, candidates: seq<Candidate>, ids: seq<nat>, force: bool,
    deadline: Option<int>, active: bool, isFollowUp: bool, prepared: bool, attempts: nat -> Attempt)
    returns (result: Outcome<Result, BatchError>)
    modifies service
    ensures var eligible := Eligible(candidates, ids, Options(force, job.channel, job.now));
            result.Ok? <==>
              && active && isFollowUp && job.channel != Messaging.Sms
              && (eligible == [] || ((job.channel == Messaging.WhatsApp ==> prepared) && NothingBreaks(job, eligible, attempts)))
    ensures result.Ok? ==>
              var eligible := Eligible(candidates, ids, Options(force, job.channel, job.now));
              && service.rows == old(service.rows) + result.value.messages
              && service.calls == old(service.calls) + CallsFor(job, result.value.messages)
              && result.value.messages == MessagesOf(job, eligible, attempts)
              && result.value.skipped == Objected(candidates, ids, Options(force, job.channel, job.now))
                                         + AsStrangers(Strangers(candidates, ids)) + SkipsOf(job, eligible, attempts)
              && result.value.totalCandidates == |candidates|
              && (result.value.deadlinePassed <==> deadline.Some? && deadline.value < job.now)
    ensures result.Err? && result.error != NotStored ==> service.rows == old(service.rows) && service.calls == old(service.calls)
    ensures old(service.rows) <= service.rows
  {
    hide FateOf, Objected, Eligible, Strangers, AsStrangers, CallsFor, Messaging.CallFor;
    NoCalls(job);
    if !active {
      return Err(TemplateInactive);
    }
    if !isFollowUp || job.channel == Messaging.Sms {
      return Err(InvalidTemplate);
    }
    var eligible, skipped := FilterCandidates(candidates, ids, Options(force, job.channel, job.now));
    var deadlinePassed := deadline.Some? && deadline.value < job.now;
    if |eligible| == 0 {
      return Ok(Result([], skipped, |candidates|, deadlinePassed));
    }
    if job.channel == Messaging.WhatsApp && !prepared {
      return Err(NotConfigured);
    }
    ghost var filtered := skipped;
    var messages: seq<Messaging.Row> := [];
    for n := 0 to |eligible|
      invariant forall k :: 0 <= k < n ==> FateOf(job, eligible[k], attempts(k)) != Broken
      invariant messages == MessagesOf(job, eligible[..n], attempts)
      invariant skipped == filtered + SkipsOf(job, eligible[..n], attempts)
      invariant service.rows == old(service.rows) + messages
      invariant service.calls == old(service.calls) + CallsFor(job, messages)
    {
      assert eligible[..n + 1][..n] == eligible[..n];
      var fate := RemindOne(service, job, eligible[n], attempts(n));
      match fate {
        case Broken => return Err(NotStored);
        case SkippedFor(reason) => skipped := skipped + [Skip(eligible[n].guest, reason)];
        case Sent(row) =>
          FateIsTheirs(job, eligible[n], attempts(n));
          OneMoreCall(job, messages, row);
          messages := messages + [row];
      }
    }
    assert eligible[..|eligible|] == eligible;
    return Ok(Result(messages, skipped, |candidates|, deadlinePassed));
  }

  // --- The batch accounts for everybody ------------------------------------------------------------------------

  /** Each eligible candidate is sent a reminder or skipped, exactly once. */
  lemma {:induction false} SendingSplitsTheEligible(job: Messaging.Job, eligible: seq<Candidate>, attempts: nat -> Attempt)
    requires NothingBreaks(job, eligible, attempts)
    ensures multiset(RowGuests(MessagesOf(job, eligible, attempts))) + multiset(SkippedGuests(SkipsOf(job, eligible, attempts))) ==
              multiset(GuestsOf(eligible))
  {
    if eligible != [] {
      var last := |eligible| - 1;
      var c := eligible[last];
      var fate := FateOf(job, c, attempts(last));
      FateIsTheirs(job, c, attempts(last));
      var rows, skips := MessagesOf(job, eligible[..last], attempts), SkipsOf(job, eligible[..last], attempts);
      var rows', skips' := MessagesOf(job, eligible, attempts), SkipsOf(job, eligible, attempts);
      assert if fate.Sent? then rows' == rows + [fate.row] && skips' == skips
             else rows' == rows && skips' == skips + [Skip(c.guest, fate.reason)];
      SendingSplitsTheEligible(job, eligible[..last], attempts);
      assert eligible == eligible[..last] + [c];
      hide *;
      GuestsAppend(eligible[..last], c);
      if fate.Sent? {
        RowsAppend(rows, fate.row);
      } else {
        SkippedAppendOne(skips, Skip(c.guest, fate.reason));
      }
      SplitOneMore(RowGuests(rows), SkippedGuests(skips), GuestsOf(eligible[..last]), RowGuests(rows'), SkippedGuests(skips'), c.guest);
    }
  }

  lemma SplitOneMore(a: seq<nat>, b: seq<nat>, all: seq<nat>, a': seq<nat>, b': seq<nat>, g: nat)
    requires multiset(a) + multiset(b) == multiset(all)
    requires (a' == a + [g] && b' == b) || (a' == a && b' == b + [g])
    ensures multiset(a') + multiset(b') == multiset(all + [g])
  {}

  lemma {:induction false} SendingKeepsOrder(job: Messaging.Job, eligible: seq<Candidate>, attempts: nat -> Attempt)
    ensures IsSubsequence(RowGuests(MessagesOf(job, eligible, attempts)), GuestsOf(eligible))
  {
    if eligible == [] {
      assert Picks([], RowGuests(MessagesOf(job, eligible, attempts)), GuestsOf(eligible));
    } else {
      var last := |eligible| - 1;
      var c := eligible[last];
      var fate := FateOf(job, c, attempts(last));
      FateIsTheirs(job, c, attempts(last));
      hide FateOf, GuestsOf, RowGuests, IsSubsequence;
      var rows := MessagesOf(job, eligible[..last], attempts);
      SendingKeepsOrder(job, eligible[..last], attempts);
      assert eligible == eligible[..last] + [c];
      GuestsAppend(eligible[..last], c);
      SubsequenceGrows(RowGuests(rows), GuestsOf(eligible[..last]), c.guest);
      if fate.Sent? {
        RowsAppend(rows, fate.row);
      }
    }
  }

  /** What becomes of an eligible candidate, and why. */
  lemma FatesAreExact(job: Messaging.Job, c: Candidate, a: Attempt)
    ensures var fate := FateOf(job, c, a);
            var known := c.guest in job.contacts;
            && (fate == SkippedFor(ContactMissing) <==> !known)
            && (fate == SkippedFor(InvitationMissing) <==> known && !a.invitationFound)
            && (fate == SkippedFor(RecentlyReminded) <==> known && a.invitationFound && a.claim == Throttled)
            && (fate == Broken <==> known && a.invitationFound && (a.claim == ClaimFailed || (a.claim == Claimed && !a.recorded)))
            && (fate.Sent? <==> known && a.invitationFound && a.claim == Claimed && a.recorded)
            && (fate.Sent? ==> Messaging.IsRenderedFor(job, c.guest, fate.row.body) && fate.row.channel == job.channel)
  {
    if c.guest in job.contacts {
      Messaging.BodyIsRenderedFor(job, c.guest);
    }
    hide Messaging.BodyFor, Messaging.IsRenderedFor;
  }

  /** A reminder goes to the candidate's guest, and its row says what the provider answered. */
  lemma FateIsTheirs(job: Messaging.Job, c: Candidate, a: Attempt)
    ensures var fate := FateOf(job, c, a);
            fate.Sent? ==>
              && fate.row.guest == c.guest
              && fate.row.mail.status == (if a.reply.Accepted? then Delivery.Sent else Delivery.Failed)
  {
    hide Messaging.BodyFor;
  }

  /** The lists of a batch that returned without error. */
  function AllSkipped(job: Messaging.Job, candidates: seq<Candidate>, ids: seq<nat>, o: Options, attempts: nat -> Attempt): seq<Skip> {
    Objected(candidates, ids, o) + AsStrangers(Strangers(candidates, ids)) + SkipsOf(job, Eligible(candidates, ids, o), attempts)
  }

  /** Messages and skipped together are exactly the targets, each as often as it was asked for. */
  lemma BatchAccountsForEveryTarget(
    job: Messaging.Job, candidates: seq<Candidate>, ids: seq<nat>, o: Options, attempts: nat -> Attempt)
    requires NothingBreaks(job, Eligible(candidates, ids, o), attempts)
    ensures multiset(RowGuests(MessagesOf(job, Eligible(candidates, ids, o), attempts)))
            + multiset(SkippedGuests(AllSkipped(job, candidates, ids, o, attempts))) == multiset(Targets(candidates, ids))
  {
    var eligible := Eligible(candidates, ids, o);
    var objected, strangers, skips := Objected(candidates, ids, o), Strangers(candidates, ids), SkipsOf(job, eligible, attempts);
    FilterSplitsTheRequested(candidates, ids, o);
    SendingSplitsTheEligible(job, eligible, attempts);
    SkippedAppend(objected + AsStrangers(strangers), skips);
    SkippedAppend(objected, AsStrangers(strangers));
    assert SkippedGuests(AsStrangers(strangers)) == strangers;
    hide Objected, Eligible, Strangers, SkipsOf, MessagesOf, RequestedGuests;
  }

  /** Counting them: nobody is lost and nobody is counted twice. */
  lemma BatchCountsAddUp(
    job: Messaging.Job, candidates: seq<Candidate>, ids: seq<nat>, o: Options, attempts: nat -> Attempt)
    requires NothingBreaks(job, Eligible(candidates, ids, o), attempts)
    ensures |MessagesOf(job, Eligible(candidates, ids, o), attempts)| + |AllSkipped(job, candidates, ids, o, attempts)| ==
              |Targets(candidates, ids)|
  {
    BatchAccountsForEveryTarget(job, candidates, ids, o, attempts);
    var m, s := RowGuests(MessagesOf(job, Eligible(candidates, ids, o), attempts)), SkippedGuests(AllSkipped(job, candidates, ids, o, attempts));
    assert |multiset(m) + multiset(s)| == |m| + |s|;
    hide AllSkipped, Targets, MessagesOf, Eligible;
  }

  /** Reminders go out in the order of the candidate list. */
  lemma RemindersKeepOrder(job: Messaging.Job, candidates: seq<Candidate>, ids: seq<nat>, o: Options, attempts: nat -> Attempt)
    ensures IsSubsequence(RowGuests(MessagesOf(job, Eligible(candidates, ids, o), attempts)), GuestsOf(candidates))
  {
    hide IsSubsequence, Eligible, MessagesOf;
    var eligible := Eligible(candidates, ids, o);
    SendingKeepsOrder(job, eligible, attempts);
    EligibleKeepsOrder(candidates, ids, o);
    SubsequencesCompose(RowGuests(MessagesOf(job, eligible, attempts)), GuestsOf(eligible), GuestsOf(candidates));
  }

  // --- Nobody is in both lists ------------------------------------------------------------------------------------

  predicate Distinct(candidates: seq<Candidate>) {
    forall j, k :: 0 <= j < k < |candidates| ==> candidates[j].guest != candidates[k].guest
  }

  lemma {:induction false} RequestedOnce(candidates: seq<Candidate>, ids: seq<nat>, g: nat)
    requires Distinct(candidates)
    ensures multiset(RequestedGuests(candidates, ids))[g] <= if IsCandidate(candidates, g) then 1 else 0
  {
    if candidates != [] {
      var last := |candidates| - 1;
      RequestedOnce(candidates[..last], ids, g);
      OneMoreCandidate(candidates, last);
      assert candidates[..last + 1] == candidates;
      assert candidates[last].guest == g ==> !IsCandidate(candidates[..last], g);
      hide Requested, IsCandidate, Distinct;
    }
  }

  lemma {:induction false} StrangersAreNoCandidates(candidates: seq<Candidate>, ids: seq<nat>, g: nat)
    requires IsCandidate(candidates, g)
    ensures multiset(Strangers(candidates, ids))[g] == 0
  {
    if ids != [] {
      StrangersAreNoCandidates(candidates, ids[..|ids| - 1], g);
    }
  }

  /** With distinct candidates, a guest who was sent a reminder is in no skip list. */
  lemma NobodyIsInBothLists(
    job: Messaging.Job, candidates: seq<Candidate>, ids: seq<nat>, o: Options, attempts: nat -> Attempt, g: nat)
    requires NothingBreaks(job, Eligible(candidates, ids, o), attempts) && Distinct(candidates)
    requires g in RowGuests(MessagesOf(job, Eligible(candidates, ids, o), attempts))
    ensures g !in SkippedGuests(AllSkipped(job, candidates, ids, o, attempts))
  {
    var sent := RowGuests(MessagesOf(job, Eligible(candidates, ids, o), attempts));
    BatchAccountsForEveryTarget(job, candidates, ids, o, attempts);
    RemindersKeepOrder(job, candidates, ids, o, attempts);
    SubsequenceMember(sent, GuestsOf(candidates), g);
    assert IsCandidate(candidates, g) by {
      var k :| 0 <= k < |candidates| && GuestsOf(candidates)[k] == g;
    }
    hide *;
    TargetedOnce(candidates, ids, g);
    OnlyOneHalf(sent, SkippedGuests(AllSkipped(job, candidates, ids, o, attempts)), Targets(candidates, ids), g);
  }

  lemma TargetedOnce(candidates: seq<Candidate>, ids: seq<nat>, g: nat)
    requires Distinct(candidates) && IsCandidate(candidates, g)
    ensures multiset(Targets(candidates, ids))[g] <= 1
  {
    hide RequestedGuests, Strangers, IsCandidate, Distinct;
    RequestedOnce(candidates, ids, g);
    StrangersAreNoCandidates(candidates, ids, g);
  }

  lemma OnlyOneHalf(a: seq<nat>, b: seq<nat>, all: seq<nat>, g: nat)
    requires multiset(a) + multiset(b) == multiset(all) && multiset(all)[g] <= 1 && g in a
    ensures g !in b
  {
    var inA: multiset<nat>, inB: multiset<nat> := multiset(a), multiset(b);
    assert inA[g] >= 1 && (inA + inB)[g] == inA[g] + inB[g];
    assert g in b ==> inB[g] >= 1;
  }

  lemma SubsequenceMember(part: seq<nat>, whole: seq<nat>, g: nat)
    requires IsSubsequence(part, whole) && g in part
    ensures g in whole
  {
    var at: seq<nat> :| Picks(at, part, whole);
  }
}
