/**
 The event roster, and the import that fills it: guests from a CSV file are created or reused in
 the tenant's guest table and then put on the roster of one event.
 */
module EventRoster {
  import opened Common
  import opened Guests
  import GuestImport

  datatype Status = Active | Cancelled

  datatype Entry = Entry(tenant: nat, event: nat, guest: nat, status: Status, maxPax: nat, adults: nat, deleted: bool)

  type Roster = seq<Entry>

  predicate IsFor(entry: Entry, tenant: nat, event: nat, guest: nat) {
    entry.tenant == tenant && entry.event == event && entry.guest == guest && !entry.deleted
  }

  predicate OnRoster(roster: Roster, tenant: nat, event: nat, guest: nat) {
    exists k :: 0 <= k < |roster| && IsFor(roster[k], tenant, event, guest)
  }

  /** Each guest is on the roster of an event at most once. */
  ghost predicate UniqueEntries(roster: Roster) {
    forall k, l :: 0 <= k < l < |roster| && !roster[k].deleted ==>
      !IsFor(roster[l], roster[k].tenant, roster[k].event, roster[k].guest)
  }

  function ImportedEntry(tenant: nat, event: nat, guest: nat): Entry {
    Entry(tenant, event, guest, Active, 1, 1, false)
  }

  /** The entries a merge adds, in file order: the first mention of each guest not yet on the roster. */
  function Additions(roster: Roster, tenant: nat, event: nat, ids: seq<nat>): seq<Entry> {
    if ids == [] then []
    else
      var last := |ids| - 1;
      var rest := Additions(roster, tenant, event, ids[..last]);
      if ids[last] in ids[..last] || OnRoster(roster, tenant, event, ids[last]) then rest
      else rest + [ImportedEntry(tenant, event, ids[last])]
  }

  function Merged(roster: Roster, tenant: nat, event: nat, ids: seq<nat>): Roster {
    roster + Additions(roster, tenant, event, ids)
  }

  /** Position of the first id, not counting repeated mentions, whose lookup or insert fails; or the end. */
  predicate StopsAt(ids: seq<nat>, fails: nat -> bool, n: nat) {
    && n <= |ids|
    && (forall k :: 0 <= k < n ==> ids[k] in ids[..k] || !fails(k))
    && (n < |ids| ==> ids[n] !in ids[..n] && fails(n))
  }

  class EventGuestService {
    var roster: Roster
    const guests: GuestService

    constructor (guests: GuestService)
      ensures this.guests == guests && roster == []
    {
      this.guests := guests;
      roster := [];
    }

    method Lookup(tenant: nat, event: nat, guest: nat) returns (found: bool)
      ensures found <==> OnRoster(roster, tenant, event, guest)
      ensures found <==>
                exists k :: 0 <= k < |roster| && roster[k].tenant == tenant && roster[k].event == event && roster[k].guest == guest && !roster[k].deleted
    {
      for k := 0 to |roster|
        invariant forall i :: 0 <= i < k ==> !IsFor(roster[i], tenant, event, guest)
      {
        if IsFor(roster[k], tenant, event, guest) {
          return true;
        }
      }
      return false;
    }

    /** Merges the ids up to the first one whose lookup or insert fails. */
    method MergeImported(tenant: nat, event: nat, ids: seq<nat>, fails: nat -> bool) returns (merged: nat)
      modifies this`roster
      ensures StopsAt(ids, fails, merged)
      ensures roster == Merged(old(roster), tenant, event, ids[..merged])
      ensures old(roster) <= roster
      ensures forall k :: |old(roster)| <= k < |roster| ==>
                roster[k] == Entry(tenant, event, roster[k].guest, Active, 1, 1, false) && roster[k].guest in ids[..merged]
    {
      hide Merged;
      MergeStart(roster, tenant, event, ids);
      var seen: set<nat> := {};
      for n := 0 to |ids|
        invariant roster == Merged(old(roster), tenant, event, ids[..n])
        invariant forall id :: id in seen <==> id in ids[..n]
        invariant old(roster) <= roster
        invariant forall k :: |old(roster)| <= k < |roster| ==>
                    roster[k] == Entry(tenant, event, roster[k].guest, Active, 1, 1, false) && roster[k].guest in ids[..n]
        invariant forall k :: 0 <= k < n ==> ids[k] in ids[..k] || !fails(k)
      {
        assert ids[..n + 1] == ids[..n] + [ids[n]];
        MergeStep(old(roster), tenant, event, ids, n);
        var id := ids[n];
        if id !in seen {
          seen := seen + {id};
          if fails(n) {
            return n;
          }
          var found := Lookup(tenant, event, id);
          if !found {
            roster := roster + [ImportedEntry(tenant, event, id)];
          }
        }
      }
      assert ids[..|ids|] == ids;
      return |ids|;
    }

    /** Imports a file for an event. When the merge stops early the guests stay created and the call reports an error. */
    method ImportCSV(
      tenant: nat, event: nat, eventExists: bool, records: seq<GuestImport.Record>, header: GuestImport.Header,
      db: GuestImport.Database, fails: nat -> bool)
      returns (result: Option<GuestImport.Result>, ghost imported: Option<GuestImport.Result>)
      modifies this`roster, guests
      ensures imported.Some? ==> eventExists && GuestImport.HeaderOk(header)
      ensures eventExists && GuestImport.HeaderOk(header) && db.answers && db.stores ==> imported.Some?
      ensures imported.None? ==> result.None? && roster == old(roster) && guests.View() == old(guests.View())
      ensures imported.Some? ==>
                && guests.View() == GuestImport.ImportStep(old(guests.View()), tenant, records, header)
                && |imported.value.importedIds| == imported.value.successCount
                && exists n: nat :: StopsAt(imported.value.importedIds, fails, n)
                     && roster == Merged(old(roster), tenant, event, imported.value.importedIds[..n])
                     && result == if n == |imported.value.importedIds| then imported else None
    {
      hide GuestImport.HeaderOk, GuestImport.ImportStep, GuestImport.Accepted, GuestImport.Parsed, GuestImport.Reused, Unique, Visible, Merged;
      if !eventExists {
        return None, None;
      }
      result := GuestImport.ImportCSV(guests, tenant, records, header, true, db);
      imported := result;
      if result.Some? {
        var merged := MergeImported(tenant, event, result.value.importedIds, fails);
        if merged < |result.value.importedIds| {
          result := None;
        }
      }
    }
  }

  /** Nobody is on the roster of an event twice, whatever the entries' status. */
  lemma UniqueMeans(roster: Roster)
    ensures UniqueEntries(roster) <==>
              forall k, l :: 0 <= k < l < |roster| && !roster[k].deleted && !roster[l].deleted ==>
                roster[k].tenant != roster[l].tenant || roster[k].event != roster[l].event || roster[k].guest != roster[l].guest
  {}

  lemma MergeStart(roster: Roster, tenant: nat, event: nat, ids: seq<nat>)
    ensures Merged(roster, tenant, event, ids[..0]) == roster
  {}

  /** One more id adds an entry unless it was mentioned before or is on the roster by now. */
  lemma MergeStep(roster: Roster, tenant: nat, event: nat, ids: seq<nat>, n: nat)
    requires n < |ids|
    ensures var before := Merged(roster, tenant, event, ids[..n]);
            Merged(roster, tenant, event, ids[..n + 1]) ==
              if ids[n] in ids[..n] || OnRoster(before, tenant, event, ids[n]) then before
              else before + [ImportedEntry(tenant, event, ids[n])]
  {
    AdditionsMembers(roster, tenant, event, ids[..n], ids[n]);
    OnExtended(roster, Additions(roster, tenant, event, ids[..n]), tenant, event, ids[n]);
    assert ids[..n + 1][..n] == ids[..n];
    hide OnRoster;
  }

  lemma OnExtended(roster: Roster, more: Roster, tenant: nat, event: nat, guest: nat)
    ensures OnRoster(roster + more, tenant, event, guest) <==>
              OnRoster(roster, tenant, event, guest) || OnRoster(more, tenant, event, guest)
  {
    var all := roster + more;
    if k :| 0 <= k < |roster| && IsFor(roster[k], tenant, event, guest) {
      assert IsFor(all[k], tenant, event, guest);
    }
    if k :| 0 <= k < |more| && IsFor(more[k], tenant, event, guest) {
      assert IsFor(all[|roster| + k], tenant, event, guest);
    }
  }

  lemma {:induction false} AdditionsMembers(roster: Roster, tenant: nat, event: nat, ids: seq<nat>, guest: nat)
    ensures OnRoster(Additions(roster, tenant, event, ids), tenant, event, guest) <==>
              guest in ids && !OnRoster(roster, tenant, event, guest)
  {
    if ids != [] {
      var last := |ids| - 1;
      var rest := Additions(roster, tenant, event, ids[..last]);
      AdditionsMembers(roster, tenant, event, ids[..last], guest);
      assert ids == ids[..last] + [ids[last]];
      var one := [ImportedEntry(tenant, event, ids[last])];
      OnExtended(rest, one, tenant, event, guest);
      assert OnRoster(one, tenant, event, guest) <==> guest == ids[last] by {
        assert IsFor(one[0], tenant, event, ids[last]);
      }
    }
  }

  lemma {:induction false} AdditionsShape(roster: Roster, tenant: nat, event: nat, ids: seq<nat>)
    ensures forall e :: e in Additions(roster, tenant, event, ids) ==> e == ImportedEntry(tenant, event, e.guest)
  {
    if ids != [] {
      AdditionsShape(roster, tenant, event, ids[..|ids| - 1]);
    }
  }

  /** A merge puts exactly the imported guests on the roster of that event, and nothing anywhere else. */
  lemma MergeAddsExactlyTheImported(roster: Roster, tenant: nat, event: nat, ids: seq<nat>, t: nat, e: nat, guest: nat)
    ensures OnRoster(Merged(roster, tenant, event, ids), t, e, guest) <==>
              OnRoster(roster, t, e, guest) || (t == tenant && e == event && guest in ids)
  {
    var more := Additions(roster, tenant, event, ids);
    AdditionsMembers(roster, tenant, event, ids, guest);
    AdditionsShape(roster, tenant, event, ids);
    OnExtended(roster, more, t, e, guest);
    hide Additions;
    if t != tenant || e != event {
      forall k | 0 <= k < |more| ensures !IsFor(more[k], t, e, guest) {
        assert more[k] in more;
      }
    }
  }

  lemma {:induction false} MergeKeepsUnique(roster: Roster, tenant: nat, event: nat, ids: seq<nat>)
    requires UniqueEntries(roster)
    ensures UniqueEntries(Merged(roster, tenant, event, ids))
  {
    if ids != [] {
      var last := |ids| - 1;
      var before := Merged(roster, tenant, event, ids[..last]);
      MergeKeepsUnique(roster, tenant, event, ids[..last]);
      MergeAddsExactlyTheImported(roster, tenant, event, ids[..last], tenant, event, ids[last]);
      if ids[last] !in ids[..last] && !OnRoster(roster, tenant, event, ids[last]) {
        assert Merged(roster, tenant, event, ids) == before + [ImportedEntry(tenant, event, ids[last])];
        forall k | 0 <= k < |before| && !before[k].deleted
          ensures !IsFor(ImportedEntry(tenant, event, ids[last]), before[k].tenant, before[k].event, before[k].guest)
        {
          assert !IsFor(before[k], tenant, event, ids[last]);
        }
      } else {
        assert Merged(roster, tenant, event, ids) == before;
      }
    }
  }

  lemma {:induction false} NothingToAdd(roster: Roster, tenant: nat, event: nat, ids: seq<nat>)
    requires forall id :: id in ids ==> OnRoster(roster, tenant, event, id)
    ensures Merged(roster, tenant, event, ids) == roster
  {
    if ids != [] {
      assert ids[|ids| - 1] in ids;
      NothingToAdd(roster, tenant, event, ids[..|ids| - 1]);
    }
  }

  /** Merging any reordering or part of an already merged list changes nothing, cancelled entries included. */
  lemma MergeIsIdempotent(roster: Roster, tenant: nat, event: nat, ids: seq<nat>, again: seq<nat>)
    requires forall id :: id in again ==> id in ids
    ensures Merged(Merged(roster, tenant, event, ids), tenant, event, again) == Merged(roster, tenant, event, ids)
  {
    forall id | id in again ensures OnRoster(Merged(roster, tenant, event, ids), tenant, event, id) {
      MergeAddsExactlyTheImported(roster, tenant, event, ids, tenant, event, id);
    }
    NothingToAdd(Merged(roster, tenant, event, ids), tenant, event, again);
  }
}
