/**
 Check-in at an event and the statistics read back from the check-in table.

 The rows here are those of one tenant; an event belongs to one tenant.
 */
module Checkin {
  import opened Common
  import EventRoster

  datatype Method = QrScan | ManualSearch | WalkIn | Kiosk

  datatype Status = Success | Duplicate | Invalid | WrongEvent

  datatype Row = Row(
    event: nat, guest: nat, kind: Method, status: Status, pax: int, adults: int, children: int, deleted: bool)

  datatype Request = Request(kind: Method, guest: Option<nat>, pax: int, adults: int, children: int)

  datatype CheckinError = EventNotFound | NotOnRoster | AlreadyCheckedIn | StoreFailed

  /** The check-in table, the roster, and the guests that are not soft-deleted. */
  datatype State = State(tenant: nat, rows: seq<Row>, roster: EventRoster.Roster, liveGuests: set<nat>)

  // --- Queries -----------------------------------------------------------------------------------------

  predicate IsSuccess(row: Row, event: nat, guest: nat) {
    !row.deleted && row.status == Success && row.event == event && row.guest == guest
  }

  predicate IsCheckedIn(rows: seq<Row>, event: nat, guest: nat) {
    exists k :: 0 <= k < |rows| && IsSuccess(rows[k], event, guest)
  }

  predicate IsActiveEntry(entry: EventRoster.Entry, tenant: nat, event: nat, guest: nat) {
    EventRoster.IsFor(entry, tenant, event, guest) && entry.status == EventRoster.Active
  }

  predicate OnActiveRoster(s: State, event: nat, guest: nat) {
    exists k :: 0 <= k < |s.roster| && IsActiveEntry(s.roster[k], s.tenant, event, guest)
  }

  /** The rows the statistics of an event look at. */
  predicate Counts(s: State, row: Row, event: nat) {
    IsSuccess(row, event, row.guest) && OnActiveRoster(s, event, row.guest)
  }

  /** The guests counted as checked in: `COUNT(DISTINCT guest_id)` counts these. */
  function Attendees(s: State, event: nat): set<nat> {
    set k | 0 <= k < |s.rows| && Counts(s, s.rows[k], event) :: s.rows[k].guest
  }

  function AttendeesBy(s: State, event: nat, kind: Method): set<nat> {
    set k | 0 <= k < |s.rows| && Counts(s, s.rows[k], event) && s.rows[k].kind == kind :: s.rows[k].guest
  }

  /** The sum of `actual_pax` over the counted rows. */
  function TotalPax(s: State, event: nat, n: nat): int
    requires n <= |s.rows|
  {
    if n == 0 then 0
    else TotalPax(s, event, n - 1) + if Counts(s, s.rows[n - 1], event) then s.rows[n - 1].pax else 0
  }

  /** Active roster entries of guests that still exist. */
  function Expected(s: State, event: nat): set<nat> {
    set k | 0 <= k < |s.roster| && s.roster[k].guest in s.liveGuests
            && IsActiveEntry(s.roster[k], s.tenant, event, s.roster[k].guest)
  }

  /** The expected entries whose guest has not checked in: who really did not show up. */
  function Absent(s: State, event: nat): set<nat> {
    set k | k in Expected(s, event) && k < |s.roster| && s.roster[k].guest !in Attendees(s, event)
  }

  // --- Check-in ------------------------------------------------------------------------------------------

  /** Party sizes as stored: at least one, and adults and children that add up to it. */
  function Balanced(event: nat, guest: nat, req: Request): Row {
    var pax := if req.pax < 1 then 1 else req.pax;
    var adults := if req.adults < 1 then pax else req.adults;
    if adults + req.children != pax then Row(event, guest, req.kind, Success, pax, pax, 0, false)
    else Row(event, guest, req.kind, Success, pax, adults, req.children, false)
  }

  /** A failed attempt has no party; without a guest the foreign key refuses the row and the error is ignored. */
  function WithFailed(rows: seq<Row>, event: nat, req: Request, status: Status, stored: bool): seq<Row> {
    if stored && req.guest.Some? then rows + [Row(event, req.guest.value, req.kind, status, 0, 0, 0, false)] else rows
  }

  function CheckinStep(s: State, event: nat, guest: nat, req: Request, eventExists: bool, stored: bool): State {
    if !eventExists || !EventRoster.OnRoster(s.roster, s.tenant, event, guest) then s
    else if IsCheckedIn(s.rows, event, guest) then s.(rows := WithFailed(s.rows, event, req, Duplicate, stored))
    else if stored then s.(rows := s.rows + [Balanced(event, guest, req)])
    else s
  }

  datatype Stats = Stats(expected: nat, checkedIn: nat, pax: int, walkIns: nat, noShows: nat, perMethod: map<Method, nat>)

  class CheckinService {
    const tenant: nat
    var rows: seq<Row>
    var roster: EventRoster.Roster
    var liveGuests: set<nat>

    ghost function View(): State
      reads this
    {
      State(tenant, rows, roster, liveGuests)
    }

    method PerformCheckin(event: nat, guest: nat, req: Request, eventExists: bool, stored: bool)
      returns (done: Outcome<Row, CheckinError>)
      modifies this`rows
      ensures View() == CheckinStep(old(View()), event, guest, req, eventExists, stored)
      ensures done.Ok? <==>
                && eventExists && EventRoster.OnRoster(roster, tenant, event, guest)
                && !IsCheckedIn(old(rows), event, guest) && stored
      ensures done.Ok? ==> rows == old(rows) + [done.value] && IsSuccess(done.value, event, guest) && WellFormed(done.value)
      ensures done.Ok? ==> done.value.kind == req.kind && done.value.pax == if req.pax < 1 then 1 else req.pax
      ensures done.Ok? && req.adults >= 1 && req.adults + req.children == done.value.pax ==>
                done.value.adults == req.adults && done.value.children == req.children
      ensures done.Ok? && !(req.adults >= 1 && req.adults + req.children == done.value.pax) ==>
                done.value.adults == done.value.pax && done.value.children == 0
    {
      if !eventExists {
        return Err(EventNotFound);
      }
      if !EventRoster.OnRoster(roster, tenant, event, guest) {
        return Err(NotOnRoster);
      }
      if IsCheckedIn(rows, event, guest) {
        RecordFailedCheckin(event, req, Duplicate, stored);
        return Err(AlreadyCheckedIn);
      }
      var pax := req.pax;
      if pax < 1 {
        pax := 1;
      }
      var adults := req.adults;
      if adults < 1 {
        adults := pax;
      }
      var children := req.children;
      if adults + children != pax {
        adults := pax;
        children := 0;
      }
      if !stored {
        return Err(StoreFailed);
      }
      var row := Row(event, guest, req.kind, Success, pax, adults, children, false);
      rows := rows + [row];
      return Ok(row);
    }

    method RecordFailedCheckin(event: nat, req: Request, status: Status, stored: bool)
      modifies this`rows
      ensures rows == WithFailed(old(rows), event, req, status, stored)
      ensures stored && req.guest.Some? ==> rows == old(rows) + [Row(event, req.guest.value, req.kind, status, 0, 0, 0, false)]
      ensures !(stored && req.guest.Some?) ==> rows == old(rows)
    {
      if stored && req.guest.Some? {
        rows := rows + [Row(event, req.guest.value, req.kind, status, 0, 0, 0, false)];
      }
    }

    /** The figures are consistent with each other in every reachable state. */
    method GetStats(event: nat) returns (stats: Stats)
      ensures stats.checkedIn == |Attendees(View(), event)| && stats.expected == |Expected(View(), event)|
      ensures stats.perMethod.Keys == {QrScan, ManualSearch, WalkIn, Kiosk}
      ensures forall m :: m in stats.perMethod ==> stats.perMethod[m] == |AttendeesBy(View(), event, m)|
      ensures stats.walkIns == |AttendeesBy(View(), event, WalkIn)|
      ensures stats.noShows == if stats.checkedIn <= stats.expected then stats.expected - stats.checkedIn else 0
      ensures Inv(View()) ==>
                && stats.checkedIn == MethodTotal(stats.perMethod)
                && stats.walkIns <= stats.checkedIn <= stats.pax
                && stats.pax == PaxOfGuests(View(), event, Attendees(View(), event))
      ensures Inv(View()) ==> stats.expected + |Attendees(View(), event) - liveGuests| == stats.checkedIn + |Absent(View(), event)|
      ensures Inv(View()) ==> (stats.noShows == |Absent(View(), event)| <==>
                                 Attendees(View(), event) <= liveGuests || Absent(View(), event) == {})
    {
      var s := State(tenant, rows, roster, liveGuests);
      var pax := 0;
      hide Inv, Attendees, AttendeesBy, Expected, Absent, PaxOfGuests, OnActiveRoster, Counts;
      for n := 0 to |rows|
        invariant pax == TotalPax(s, event, n)
      {
        if Counts(s, rows[n], event) {
          pax := pax + rows[n].pax;
        }
      }
      if Inv(s) {
        MethodCountsAddUp(s, event);
        EachGuestsPaxIsCountedOnce(s, event);
        ExpectedAndCheckedInBalance(s, event);
        EmptySets(s, event);
      }
      hide *;
      var perMethod := map[
        QrScan := |AttendeesBy(s, event, QrScan)|, ManualSearch := |AttendeesBy(s, event, ManualSearch)|,
        WalkIn := |AttendeesBy(s, event, WalkIn)|, Kiosk := |AttendeesBy(s, event, Kiosk)|];
      MethodTotalOf(perMethod);
      var expected, checkedIn := |Expected(s, event)|, |Attendees(s, event)|;
      var noShows := expected - checkedIn;
      if noShows < 0 {
        noShows := 0;
      }
      stats := Stats(expected, checkedIn, pax, |AttendeesBy(s, event, WalkIn)|, noShows, perMethod);
    }
  }

  function MethodTotal(perMethod: map<Method, nat>): nat {
    Of(perMethod, QrScan) + Of(perMethod, ManualSearch) + Of(perMethod, WalkIn) + Of(perMethod, Kiosk)
  }

  function Of(perMethod: map<Method, nat>, kind: Method): nat {
    if kind in perMethod then perMethod[kind] else 0
  }

  lemma MethodTotalOf(perMethod: map<Method, nat>)
    requires QrScan in perMethod && ManualSearch in perMethod && WalkIn in perMethod && Kiosk in perMethod
    ensures MethodTotal(perMethod) == perMethod[QrScan] + perMethod[ManualSearch] + perMethod[WalkIn] + perMethod[Kiosk]
  {}

  // --- What every step keeps ----------------------------------------------------------------------------------

  predicate WellFormed(row: Row) {
    row.adults >= 1 && row.pax >= 1 && row.adults + row.children == row.pax
  }

  /** A guest has at most one live successful check-in per event, and every one of them adds up. */
  ghost predicate Inv(s: State) {
    && (forall j, k :: 0 <= j < k < |s.rows| && !s.rows[j].deleted && s.rows[j].status == Success ==>
          !IsSuccess(s.rows[k], s.rows[j].event, s.rows[j].guest))
    && (forall k :: 0 <= k < |s.rows| && s.rows[k].status == Success ==> WellFormed(s.rows[k]))
    && EventRoster.UniqueEntries(s.roster)
  }

  datatype Action =
    | CheckIn(event: nat, guest: nat, request: Request, eventExists: bool, stored: bool)
    | Refuse(event: nat, request: Request, status: Status, stored: bool)
    | Remove(row: nat)
    | Import(event: nat, ids: seq<nat>)
    | Cancel(entry: nat)
    | AddGuest(guest: nat)
    | DeleteGuest(guest: nat)

  function Step(s: State, a: Action): State {
    match a
    case CheckIn(event, guest, req, eventExists, stored) => CheckinStep(s, event, guest, req, eventExists, stored)
    case Refuse(event, req, status, stored) =>
      if status == Success then s else s.(rows := WithFailed(s.rows, event, req, status, stored))
    case Remove(k) => if k < |s.rows| then s.(rows := s.rows[k := s.rows[k].(deleted := true)]) else s
    case Import(event, ids) => s.(roster := EventRoster.Merged(s.roster, s.tenant, event, ids))
    case Cancel(k) =>
      if k < |s.roster| && !s.roster[k].deleted then
        s.(roster := s.roster[k := s.roster[k].(status := EventRoster.Cancelled)])
      else s
    case AddGuest(guest) => s.(liveGuests := s.liveGuests + {guest})
    case DeleteGuest(guest) => s.(liveGuests := s.liveGuests - {guest})
  }

  function Run(s: State, actions: seq<Action>): State
    decreases |actions|
  {
    if actions == [] then s else Run(Step(s, actions[0]), actions[1..])
  }

  lemma CheckinKeepsInv(s: State, event: nat, guest: nat, req: Request, eventExists: bool, stored: bool)
    requires Inv(s)
    ensures Inv(CheckinStep(s, event, guest, req, eventExists, stored))
  {}

  lemma StepKeepsInv(s: State, a: Action)
    requires Inv(s)
    ensures Inv(Step(s, a))
  {
    match a
    case CheckIn(event, guest, req, eventExists, stored) => CheckinKeepsInv(s, event, guest, req, eventExists, stored);
    case Refuse(_, _, _, _) =>
    case Remove(_) =>
    case Import(event, ids) => EventRoster.MergeKeepsUnique(s.roster, s.tenant, event, ids);
    case Cancel(_) =>
    case AddGuest(_) =>
    case DeleteGuest(_) =>
  }

  lemma {:induction false} RunKeepsInv(s: State, actions: seq<Action>)
    requires Inv(s)
    ensures Inv(Run(s, actions))
    decreases |actions|
  {
    if actions != [] {
      StepKeepsInv(s, actions[0]);
      RunKeepsInv(Step(s, actions[0]), actions[1..]);
    }
  }

  /** The stored children are negative exactly when a negative request already adds up. */
  lemma ChildrenAreNegativeOnlyIfRequested(event: nat, guest: nat, req: Request)
    ensures Balanced(event, guest, req).children < 0 <==>
              req.children < 0 && req.adults >= 1 && req.adults + req.children == (if req.pax < 1 then 1 else req.pax)
  {}

  // --- The statistics agree -------------------------------------------------------------------------------------

  lemma MethodsAreDisjoint(s: State, event: nat, a: Method, b: Method)
    requires Inv(s) && a != b
    ensures AttendeesBy(s, event, a) !! AttendeesBy(s, event, b)
  {
    hide OnActiveRoster;
    forall j, k | 0 <= j < |s.rows| && 0 <= k < |s.rows| && Counts(s, s.rows[j], event) && Counts(s, s.rows[k], event)
      ensures s.rows[j].guest == s.rows[k].guest ==> s.rows[j].kind == s.rows[k].kind
    {}
    hide Inv, Counts;
  }

  lemma MethodsCover(s: State, event: nat)
    ensures Attendees(s, event) == AttendeesBy(s, event, QrScan) + AttendeesBy(s, event, ManualSearch)
                                   + AttendeesBy(s, event, WalkIn) + AttendeesBy(s, event, Kiosk)
  {
    hide Counts;
    forall g | g in Attendees(s, event)
      ensures g in AttendeesBy(s, event, QrScan) + AttendeesBy(s, event, ManualSearch)
                   + AttendeesBy(s, event, WalkIn) + AttendeesBy(s, event, Kiosk)
    {
      var k :| 0 <= k < |s.rows| && Counts(s, s.rows[k], event) && s.rows[k].guest == g;
      assert g in AttendeesBy(s, event, s.rows[k].kind);
    }
  }

  /** Distinct guests per method sum to the distinct guests in all. */
  lemma MethodCountsAddUp(s: State, event: nat)
    requires Inv(s)
    ensures |Attendees(s, event)| == |AttendeesBy(s, event, QrScan)| + |AttendeesBy(s, event, ManualSearch)|
                                     + |AttendeesBy(s, event, WalkIn)| + |AttendeesBy(s, event, Kiosk)|
  {
    hide AttendeesBy, Attendees, Inv;
    MethodsCover(s, event);
    MethodsAreDisjoint(s, event, QrScan, ManualSearch);
    MethodsAreDisjoint(s, event, QrScan, WalkIn);
    MethodsAreDisjoint(s, event, QrScan, Kiosk);
    MethodsAreDisjoint(s, event, ManualSearch, WalkIn);
    MethodsAreDisjoint(s, event, ManualSearch, Kiosk);
    MethodsAreDisjoint(s, event, WalkIn, Kiosk);
    FourParts(AttendeesBy(s, event, QrScan), AttendeesBy(s, event, ManualSearch),
              AttendeesBy(s, event, WalkIn), AttendeesBy(s, event, Kiosk));
  }

  lemma FourParts(a: set<nat>, b: set<nat>, c: set<nat>, d: set<nat>)
    requires a !! b && a !! c && a !! d && b !! c && b !! d && c !! d
    ensures |a + b + c + d| == |a| + |b| + |c| + |d|
  {
    assert (a + b) !! c && (a + b + c) !! d;
  }

  /** The party of a checked-in guest. */
  ghost function PaxOf(s: State, event: nat, guest: nat): int {
    if !IsCheckedIn(s.rows, event, guest) then 0
    else
      var k :| 0 <= k < |s.rows| && IsSuccess(s.rows[k], event, guest);
      s.rows[k].pax
  }

  ghost function PaxOfGuests(s: State, event: nat, guests: set<nat>): int {
    if guests == {} then 0
    else
      var g :| g in guests;
      PaxOf(s, event, g) + PaxOfGuests(s, event, guests - {g})
  }

  /** Which guest is taken first does not matter. */
  lemma {:induction false} PaxOfOneMore(s: State, event: nat, guests: set<nat>, guest: nat)
    requires guest !in guests
    ensures PaxOfGuests(s, event, guests + {guest}) == PaxOfGuests(s, event, guests) + PaxOf(s, event, guest)
    decreases |guests|
  {
    hide PaxOf;
    var all := guests + {guest};
    var g :| g in all && PaxOfGuests(s, event, all) == PaxOf(s, event, g) + PaxOfGuests(s, event, all - {g});
    if g == guest {
      assert all - {g} == guests;
    } else {
      var rest := guests - {g};
      assert all - {g} == rest + {guest} && guests == rest + {g};
      PaxOfOneMore(s, event, rest, guest);
      PaxOfOneMore(s, event, rest, g);
    }
  }

  function AttendeesUpTo(s: State, event: nat, n: nat): set<nat>
    requires n <= |s.rows|
  {
    set k | 0 <= k < n && Counts(s, s.rows[k], event) :: s.rows[k].guest
  }

  lemma AttendeesOneMore(s: State, event: nat, n: nat)
    requires n < |s.rows|
    ensures AttendeesUpTo(s, event, n + 1) ==
              AttendeesUpTo(s, event, n) + if Counts(s, s.rows[n], event) then {s.rows[n].guest} else {}
  {
    hide Counts;
  }

  /** A counted row is its guest's only one: it is new to the rows before it, and holds the guest's party. */
  lemma CountedRowIsTheOnlyOne(s: State, event: nat, n: nat)
    requires Inv(s) && n < |s.rows| && Counts(s, s.rows[n], event)
    ensures s.rows[n].guest !in AttendeesUpTo(s, event, n)
    ensures PaxOf(s, event, s.rows[n].guest) == s.rows[n].pax >= 1
  {
    hide OnActiveRoster, EventRoster.UniqueEntries;
    var g := s.rows[n].guest;
    assert IsSuccess(s.rows[n], event, g);
    forall k | 0 <= k < |s.rows| && IsSuccess(s.rows[k], event, g) ensures k == n {
      assert s.rows[k].event == event;
    }
  }

  ghost predicate PaxAddsUp(s: State, event: nat, total: int, guests: set<nat>) {
    total == PaxOfGuests(s, event, guests) && |guests| <= total
  }

  lemma PaxOneMore(s: State, event: nat, n: nat)
    requires Inv(s) && n < |s.rows| && PaxAddsUp(s, event, TotalPax(s, event, n), AttendeesUpTo(s, event, n))
    ensures PaxAddsUp(s, event, TotalPax(s, event, n + 1), AttendeesUpTo(s, event, n + 1))
  {
    hide *;
    var before, g := AttendeesUpTo(s, event, n), s.rows[n].guest;
    AttendeesOneMore(s, event, n);
    TotalPaxOneMore(s, event, n);
    if Counts(s, s.rows[n], event) {
      CountedRowIsTheOnlyOne(s, event, n);
      PaxAddsUpOneMore(s, event, TotalPax(s, event, n), before, g);
    } else {
      assert before + {} == before;
    }
  }

  lemma TotalPaxOneMore(s: State, event: nat, n: nat)
    requires n < |s.rows|
    ensures TotalPax(s, event, n + 1) == TotalPax(s, event, n) + if Counts(s, s.rows[n], event) then s.rows[n].pax else 0
  {
    hide Counts;
  }

  lemma PaxAddsUpOneMore(s: State, event: nat, total: int, guests: set<nat>, g: nat)
    requires PaxAddsUp(s, event, total, guests) && g !in guests && PaxOf(s, event, g) >= 1
    ensures PaxAddsUp(s, event, total + PaxOf(s, event, g), guests + {g})
  {
    hide PaxOf, PaxOfGuests;
    PaxOfOneMore(s, event, guests, g);
  }

  lemma {:induction false} PaxUpTo(s: State, event: nat, n: nat)
    requires Inv(s) && n <= |s.rows|
    ensures PaxAddsUp(s, event, TotalPax(s, event, n), AttendeesUpTo(s, event, n))
  {
    if n == 0 {
      assert AttendeesUpTo(s, event, n) == {};
    } else {
      hide Inv, PaxAddsUp, AttendeesUpTo, TotalPax;
      PaxUpTo(s, event, n - 1);
      PaxOneMore(s, event, n - 1);
    }
  }

  /** The total party size adds up each checked-in guest's party once. */
  lemma EachGuestsPaxIsCountedOnce(s: State, event: nat)
    requires Inv(s)
    ensures TotalPax(s, event, |s.rows|) == PaxOfGuests(s, event, Attendees(s, event))
    ensures |Attendees(s, event)| <= TotalPax(s, event, |s.rows|)
  {
    PaxUpTo(s, event, |s.rows|);
    assert Attendees(s, event) == AttendeesUpTo(s, event, |s.rows|);
  }

  lemma ActiveEntryIsExact(s: State, event: nat, g: nat)
    ensures OnActiveRoster(s, event, g) <==>
              exists k :: 0 <= k < |s.roster| && s.roster[k].guest == g && s.roster[k].event == event && s.roster[k].tenant == s.tenant
                          && s.roster[k].status == EventRoster.Active && !s.roster[k].deleted
  {
    assert forall k :: 0 <= k < |s.roster| ==>
      (IsActiveEntry(s.roster[k], s.tenant, event, g) <==>
        s.roster[k].guest == g && s.roster[k].event == event && s.roster[k].tenant == s.tenant && s.roster[k].status == EventRoster.Active && !s.roster[k].deleted);
  }

  /** Who is counted, over the columns: guests with a live successful row for the event and an active roster entry that is not deleted. */
  lemma AttendeesAreExact(s: State, event: nat, g: nat)
    ensures g in Attendees(s, event) <==>
              && (exists k :: 0 <= k < |s.rows| && s.rows[k].guest == g && s.rows[k].event == event && s.rows[k].status == Success && !s.rows[k].deleted)
              && (exists k :: 0 <= k < |s.roster| && s.roster[k].guest == g && s.roster[k].event == event && s.roster[k].tenant == s.tenant
                              && s.roster[k].status == EventRoster.Active && !s.roster[k].deleted)
  {
    ActiveEntryIsExact(s, event, g);
    hide OnActiveRoster;
    if k :| 0 <= k < |s.rows| && s.rows[k].guest == g && s.rows[k].event == event && s.rows[k].status == Success && !s.rows[k].deleted && OnActiveRoster(s, event, g) {
      assert Counts(s, s.rows[k], event);
    }
  }

  // --- Checked in and expected -----------------------------------------------------------------------------------

  ghost function EntryOf(s: State, event: nat, guest: nat): nat
    requires OnActiveRoster(s, event, guest)
    ensures EntryOf(s, event, guest) < |s.roster| && IsActiveEntry(s.roster[EntryOf(s, event, guest)], s.tenant, event, guest)
  {
    var k :| 0 <= k < |s.roster| && IsActiveEntry(s.roster[k], s.tenant, event, guest);
    k
  }

  /** Guests that still exist are matched with different roster entries. */
  lemma {:induction false} GuestsHaveEntries(s: State, event: nat, guests: set<nat>, entries: set<nat>)
    requires guests <= s.liveGuests
    requires forall g :: g in guests ==> OnActiveRoster(s, event, g) && EntryOf(s, event, g) in entries
    ensures |guests| <= |entries|
    decreases |guests|
  {
    if guests != {} {
      var g :| g in guests;
      var rest, k := guests - {g}, EntryOf(s, event, g);
      forall h | h in rest ensures EntryOf(s, event, h) in entries - {k} {
        assert s.roster[k].guest == g;
      }
      hide OnActiveRoster, EntryOf;
      GuestsHaveEntries(s, event, rest, entries - {k});
    }
  }

  /** Entries of different guests: no guest has two active entries for an event. */
  lemma {:induction false} EntriesHaveGuests(s: State, event: nat, entries: set<nat>, guests: set<nat>)
    requires EventRoster.UniqueEntries(s.roster)
    requires forall k :: k in entries ==>
               k < |s.roster| && s.roster[k].guest in guests && IsActiveEntry(s.roster[k], s.tenant, event, s.roster[k].guest)
    ensures |entries| <= |guests|
    decreases |entries|
  {
    if entries != {} {
      var k :| k in entries;
      var rest, g := entries - {k}, s.roster[k].guest;
      forall l | l in rest ensures s.roster[l].guest in guests - {g} {
        assert if k < l then !EventRoster.IsFor(s.roster[l], s.tenant, event, g) else !EventRoster.IsFor(s.roster[k], s.tenant, event, s.roster[l].guest);
      }
      EntriesHaveGuests(s, event, rest, guests - {g});
    }
  }

  /** The checked-in guests that still exist are exactly those with an expected entry that is not absent. */
  lemma PresentEntries(s: State, event: nat)
    requires Inv(s)
    ensures |Expected(s, event) - Absent(s, event)| == |Attendees(s, event) * s.liveGuests|
  {
    var present, guests := Expected(s, event) - Absent(s, event), Attendees(s, event) * s.liveGuests;
    forall g | g in guests ensures OnActiveRoster(s, event, g) && EntryOf(s, event, g) in present {
      assert OnActiveRoster(s, event, g);
      assert s.roster[EntryOf(s, event, g)].guest == g;
    }
    GuestsHaveEntries(s, event, guests, present);
    forall k | k in present
      ensures k < |s.roster| && s.roster[k].guest in guests && IsActiveEntry(s.roster[k], s.tenant, event, s.roster[k].guest)
    {}
    hide Attendees, Expected, Absent;
    EntriesHaveGuests(s, event, present, guests);
  }

  /** Expected guests and guests checked in differ by those who stayed away and those deleted since. */
  lemma ExpectedAndCheckedInBalance(s: State, event: nat)
    requires Inv(s)
    ensures |Expected(s, event)| + |Attendees(s, event) - s.liveGuests| == |Attendees(s, event)| + |Absent(s, event)|
  {
    hide *;
    AbsentAreExpected(s, event);
    PresentEntries(s, event);
    Balance(Expected(s, event), Absent(s, event), Attendees(s, event), s.liveGuests);
  }

  lemma AbsentAreExpected(s: State, event: nat)
    ensures Absent(s, event) <= Expected(s, event)
  {
    hide Expected, Attendees;
  }

  lemma Balance(e: set<nat>, b: set<nat>, a: set<nat>, live: set<nat>)
    requires b <= e && |e - b| == |a * live|
    ensures |e| + |a - live| == |a| + |b|
  {
    Parts(b, e - b);
    Parts(a - live, a * live);
    assert e == b + (e - b) && a == (a - live) + (a * live);
  }

  lemma Parts(a: set<nat>, b: set<nat>)
    requires a !! b
    ensures |a + b| == |a| + |b|
  {}

  /** The no-show figure the service reports. */
  function NoShows(s: State, event: nat): nat {
    if |Attendees(s, event)| <= |Expected(s, event)| then |Expected(s, event)| - |Attendees(s, event)| else 0
  }

  /** The figure is the number of expected guests who stayed away if and only if nobody checked in was deleted or nobody stayed away. */
  lemma NoShowsAreTheAbsent(s: State, event: nat)
    requires Inv(s)
    ensures NoShows(s, event) == |Absent(s, event)| <==> Attendees(s, event) <= s.liveGuests || Absent(s, event) == {}
  {
    ExpectedAndCheckedInBalance(s, event);
    EmptySets(s, event);
    hide Attendees, Expected, Absent, Inv;
  }

  lemma EmptySets(s: State, event: nat)
    ensures |Attendees(s, event) - s.liveGuests| == 0 <==> Attendees(s, event) <= s.liveGuests
    ensures |Absent(s, event)| == 0 <==> Absent(s, event) == {}
  {
    hide *;
    NothingOutside(Attendees(s, event), s.liveGuests);
  }

  lemma NothingOutside(a: set<nat>, b: set<nat>)
    ensures |a - b| == 0 <==> a <= b
  {
    if |a - b| == 0 {
      forall x | x in a ensures x in b { assert x !in a - b; }
    }
  }

  /** One of two expected guests checks in and is then deleted: the figure says nobody is missing, but one is. */
  lemma DeletedGuestHidesAnAbsentOne()
    ensures var s := Run(State(0, [], [], {}),
                         [AddGuest(7), AddGuest(8), Import(1, [7, 8]), CheckIn(1, 7, Request(Kiosk, None, 1, 1, 0), true, true), DeleteGuest(7)]);
            Inv(s) && NoShows(s, 1) == 0 && |Absent(s, 1)| == 1
  {
    var empty := State(0, [], [], {});
    var req := Request(Kiosk, None, 1, 1, 0);
    var a, b, c, d, e := AddGuest(7), AddGuest(8), Import(1, [7, 8]), CheckIn(1, 7, req, true, true), DeleteGuest(7);
    RunOfFive(empty, a, b, c, d, e);
    RunKeepsInv(empty, [a, b, c, d, e]);
    hide Run;
    var s2 := Step(Step(empty, a), b);
    var s3 := Step(s2, c);
    TwoImported();
    var s4 := Step(s3, d);
    assert EventRoster.IsFor(s3.roster[0], 0, 1, 7);
    assert s4.rows == [Row(1, 7, Kiosk, Success, 1, 1, 0, false)];
    var s := Step(s4, e);
    assert s.liveGuests == {8};
    TwoGuestsOneDeleted(s);
  }

  lemma TwoImported()
    ensures EventRoster.Merged([], 0, 1, [7, 8]) == [EventRoster.ImportedEntry(0, 1, 7), EventRoster.ImportedEntry(0, 1, 8)]
  {
    var none: EventRoster.Roster, one: seq<nat>, two: seq<nat> := [], [7], [7, 8];
    assert two[..1] == one && one[..0] == [];
    assert EventRoster.Additions(none, 0, 1, one[..0]) == [];
    assert EventRoster.Additions(none, 0, 1, one) == [EventRoster.ImportedEntry(0, 1, 7)];
    assert two[1] !in two[..1];
    assert EventRoster.Additions(none, 0, 1, two) == EventRoster.Additions(none, 0, 1, one) + [EventRoster.ImportedEntry(0, 1, 8)];
  }

  lemma RunOfFive(s: State, a: Action, b: Action, c: Action, d: Action, e: Action)
    ensures Run(s, [a, b, c, d, e]) == Step(Step(Step(Step(Step(s, a), b), c), d), e)
  {
    hide Step;
    assert [a, b, c, d, e][1..] == [b, c, d, e] && [b, c, d, e][1..] == [c, d, e] && [c, d, e][1..] == [d, e] && [d, e][1..] == [e] && [e][1..] == [];
    var s1 := Step(s, a);
    var s2 := Step(s1, b);
    var s3 := Step(s2, c);
    assert Run(s1, [b, c, d, e]) == Run(s2, [c, d, e]);
    assert Run(s2, [c, d, e]) == Run(s3, [d, e]);
    assert Run(s3, [d, e]) == Run(Step(s3, d), [e]);
    assert Run(Step(s3, d), [e]) == Run(Step(Step(s3, d), e), []);
  }

  lemma TwoGuestsOneDeleted(s: State)
    requires s == State(0, [Row(1, 7, Kiosk, Success, 1, 1, 0, false)], [EventRoster.ImportedEntry(0, 1, 7), EventRoster.ImportedEntry(0, 1, 8)], {8})
    ensures NoShows(s, 1) == 0 && |Absent(s, 1)| == 1
  {
    assert IsActiveEntry(s.roster[0], 0, 1, 7);
    assert Counts(s, s.rows[0], 1);
    assert Attendees(s, 1) == {7};
    assert Expected(s, 1) == {1};
    assert Absent(s, 1) == {1};
  }
}
