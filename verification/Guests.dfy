/**
 The tenant guest table and the service calls that change it one at a time: create, update,
 delete, and the bulk insert that ends an import.

 A guest's phone and email identify them within their tenant. No index enforces that; the
 calls check before they write, and go on when a check itself fails.
 */
module Guests {
  import opened Common
  import Text

  /** A row: the identifying columns, and whether it is soft-deleted. */
  datatype Guest = Guest(
    tenant: nat,
    fullName: string,
    phone: Option<string>,
    email: Option<string>,
    guestType: string,
    deleted: bool)

  type Table = map<nat, Guest>

  /** The columns of a create or update request; an empty string is an absent value. */
  datatype Request = Request(fullName: string, phone: string, email: string, guestType: string)

  datatype ServiceError = QuotaExceeded | AlreadyExists | NotFound

  function Optional(value: string): Option<string> {
    if value == "" then None else Some(value)
  }

  /** A column that is null exactly when the value is empty. */
  predicate IsColumnOf(column: Option<string>, value: string) {
    (value == "" ==> column.None?) && (value != "" ==> column == Some(value))
  }

  function NewGuest(tenant: nat, req: Request): Guest {
    Guest(tenant, req.fullName, Optional(req.phone), Optional(req.email), req.guestType, false)
  }

  /** An empty phone or email clears the column; an empty name or type keeps it. */
  function ApplyUpdate(g: Guest, req: Request): Guest {
    g.(fullName := if req.fullName != "" then req.fullName else g.fullName,
       phone := Optional(req.phone),
       email := Optional(req.email),
       guestType := if req.guestType != "" then req.guestType else g.guestType)
  }

  /** The columns an update leaves: contacts as requested, an empty one cleared; name and type as requested, an empty one kept. */
  predicate IsUpdateOf(before: Guest, after: Guest, req: Request) {
    && after.tenant == before.tenant && after.deleted == before.deleted
    && (req.fullName == "" ==> after.fullName == before.fullName) && (req.fullName != "" ==> after.fullName == req.fullName)
    && (req.guestType == "" ==> after.guestType == before.guestType) && (req.guestType != "" ==> after.guestType == req.guestType)
    && IsColumnOf(after.phone, req.phone) && IsColumnOf(after.email, req.email)
  }

  lemma UpdateColumns(g: Guest, req: Request)
    ensures IsUpdateOf(g, ApplyUpdate(g, req), req)
  {}

  predicate HasPhone(g: Guest, tenant: nat, phone: string) {
    !g.deleted && g.tenant == tenant && g.phone == Some(phone)
  }

  predicate HasEmail(g: Guest, tenant: nat, email: string) {
    !g.deleted && g.tenant == tenant && g.email == Some(email)
  }

  predicate PhoneTaken(rows: Table, tenant: nat, phone: string) {
    exists i :: i in rows && HasPhone(rows[i], tenant, phone)
  }

  predicate EmailTaken(rows: Table, tenant: nat, email: string) {
    exists i :: i in rows && HasEmail(rows[i], tenant, email)
  }

  /** A live row of the tenant. */
  predicate Visible(rows: Table, tenant: nat, id: nat) {
    id in rows && rows[id].tenant == tenant && !rows[id].deleted
  }

  // --- The calls as functions of the table ----------------------------------------------------------

  function Trimmed(req: Request): Request {
    req.(fullName := Text.Trim(req.fullName), phone := Text.Trim(req.phone), email := Text.Trim(req.email))
  }

  /** Which of the two duplicate lookups of a call succeed; a failed one is taken for "no duplicate". */
  datatype Lookups = Lookups(email: bool, phone: bool)

  const ANSWERED := Lookups(true, true)

  predicate CreateConflicts(rows: Table, tenant: nat, req: Request, l: Lookups) {
    || (req.email != "" && l.email && EmailTaken(rows, tenant, req.email))
    || (req.phone != "" && l.phone && PhoneTaken(rows, tenant, req.phone))
  }

  /** Changing to a phone or email that another live guest has. */
  predicate UpdateConflicts(rows: Table, tenant: nat, id: nat, req: Request, l: Lookups)
    requires id in rows
  {
    || (req.email != "" && rows[id].email != Some(req.email) && l.email && EmailTaken(rows, tenant, req.email))
    || (req.phone != "" && rows[id].phone != Some(req.phone) && l.phone && PhoneTaken(rows, tenant, req.phone))
  }

  /** Inserts guests under consecutive fresh ids. */
  function InsertAll(rows: Table, firstId: nat, guests: seq<Guest>): Table {
    if guests == [] then rows
    else InsertAll(rows, firstId, guests[..|guests| - 1])[firstId + |guests| - 1 := guests[|guests| - 1]]
  }

  /** The table and the next unused id. */
  datatype State = State(rows: Table, nextId: nat)

  function CreateStep(s: State, tenant: nat, request: Request, l: Lookups): State {
    var req := Trimmed(request);
    if CreateConflicts(s.rows, tenant, req, l) then s
    else State(s.rows[s.nextId := NewGuest(tenant, req)], s.nextId + 1)
  }

  function UpdateStep(s: State, tenant: nat, id: nat, req: Request, l: Lookups): State {
    if !Visible(s.rows, tenant, id) || UpdateConflicts(s.rows, tenant, id, req, l) then s
    else s.(rows := s.rows[id := ApplyUpdate(s.rows[id], req)])
  }

  function DeleteStep(s: State, tenant: nat, id: nat): State {
    if Visible(s.rows, tenant, id) then s.(rows := s.rows[id := s.rows[id].(deleted := true)]) else s
  }

  // --- The service ------------------------------------------------------------------------------------

  class GuestService {
    var rows: Table
    var nextId: nat

    ghost function View(): State
      reads this
    {
      State(rows, nextId)
    }

    /** SELECT ... LIMIT 1: some matching row, if there is one. */
    method FindByPhoneOrEmail(tenant: nat, phone: string, email: string) returns (found: Option<nat>)
      ensures found.Some? ==>
                && found.value in rows
                && ((phone != "" && HasPhone(rows[found.value], tenant, phone))
                    || (email != "" && HasEmail(rows[found.value], tenant, email)))
      ensures found.None? ==>
                && (phone != "" ==> !PhoneTaken(rows, tenant, phone))
                && (email != "" ==> !EmailTaken(rows, tenant, email))
    {
      if phone != "" && PhoneTaken(rows, tenant, phone) {
        var i :| i in rows && HasPhone(rows[i], tenant, phone);
        return Some(i);
      }
      if email != "" && EmailTaken(rows, tenant, email) {
        var i :| i in rows && HasEmail(rows[i], tenant, email);
        return Some(i);
      }
      return None;
    }

    method Create(tenant: nat, request: Request, l: Lookups, quotaReached: bool) returns (created: Outcome<nat, ServiceError>)
      modifies this
      ensures View() == if quotaReached then old(View()) else CreateStep(old(View()), tenant, request, l)
      ensures created.Ok? <==> !quotaReached && !CreateConflicts(old(rows), tenant, Trimmed(request), l)
      ensures created.Ok? ==> created.value == old(nextId) && nextId == old(nextId) + 1 && created.value in rows
      ensures created.Ok? ==>
                var g := rows[created.value];
                && g.tenant == tenant && !g.deleted && g.guestType == request.guestType
                && g.fullName == Text.Trim(request.fullName)
                && IsColumnOf(g.phone, Text.Trim(request.phone)) && IsColumnOf(g.email, Text.Trim(request.email))
    {
      hide Text.Trim;
      if quotaReached {
        return Err(QuotaExceeded);
      }
      var req := Trimmed(request);
      if req.email != "" {
        var existing := FindByPhoneOrEmail(tenant, "", req.email);
        if l.email && existing.Some? {
          return Err(AlreadyExists);
        }
      }
      if req.phone != "" {
        var existing := FindByPhoneOrEmail(tenant, req.phone, "");
        if l.phone && existing.Some? {
          return Err(AlreadyExists);
        }
      }
      rows := rows[nextId := NewGuest(tenant, req)];
      nextId := nextId + 1;
      return Ok(nextId - 1);
    }

    method Update(tenant: nat, id: nat, req: Request, l: Lookups) returns (updated: Outcome<Guest, ServiceError>)
      modifies this
      ensures View() == UpdateStep(old(View()), tenant, id, req, l)
      ensures updated.Ok? <==> Visible(old(rows), tenant, id) && !UpdateConflicts(old(rows), tenant, id, req, l)
      ensures updated.Ok? ==> id in rows && updated.value == rows[id]
      ensures updated.Ok? ==>
                id in old(rows) && IsUpdateOf(old(rows)[id], rows[id], req)
    {
      hide ApplyUpdate, IsUpdateOf;
      if !(id in rows && rows[id].tenant == tenant && !rows[id].deleted) {
        return Err(NotFound);
      }
      var guest := rows[id];
      if req.email != "" && (guest.email.None? || guest.email.value != req.email) {
        var existing := FindByPhoneOrEmail(tenant, "", req.email);
        if l.email && existing.Some? && existing.value != id {
          return Err(AlreadyExists);
        }
      }
      if req.phone != "" && (guest.phone.None? || guest.phone.value != req.phone) {
        var existing := FindByPhoneOrEmail(tenant, req.phone, "");
        if l.phone && existing.Some? && existing.value != id {
          return Err(AlreadyExists);
        }
      }
      UpdateColumns(guest, req);
      guest := ApplyUpdate(guest, req);
      rows := rows[id := guest];
      return Ok(guest);
    }

    method Delete(tenant: nat, id: nat) returns (ok: bool)
      modifies this
      ensures View() == DeleteStep(old(View()), tenant, id)
      ensures ok <==> Visible(old(rows), tenant, id)
      ensures rows == if ok then old(rows)[id := old(rows)[id].(deleted := true)] else old(rows)
    {
      ok := id in rows && rows[id].tenant == tenant && !rows[id].deleted;
      if ok {
        rows := rows[id := rows[id].(deleted := true)];
      }
    }

    /** The transactional insert loop of an import. */
    method BulkCreate(guests: seq<Guest>)
      modifies this
      ensures View() == State(InsertAll(old(rows), old(nextId), guests), old(nextId) + |guests|)
    {
      for k := 0 to |guests|
        invariant rows == InsertAll(old(rows), old(nextId), guests[..k])
        invariant nextId == old(nextId) + k
      {
        assert guests[..k + 1][..k] == guests[..k];
        rows := rows[nextId := guests[k]];
        nextId := nextId + 1;
      }
      assert guests[..|guests|] == guests;
    }
  }

  // --- Identity ------------------------------------------------------------------------------------------

  predicate SharesContact(a: Guest, b: Guest) {
    (a.phone.Some? && a.phone == b.phone) || (a.email.Some? && a.email == b.email)
  }

  /** Two rows that would make a lookup ambiguous. */
  predicate Clashes(a: Guest, b: Guest) {
    !a.deleted && !b.deleted && a.tenant == b.tenant && SharesContact(a, b)
  }

  /** Live guests of a tenant have pairwise distinct phones and pairwise distinct emails. */
  ghost predicate Unique(rows: Table) {
    forall i, j :: i in rows && j in rows && i != j ==> !Clashes(rows[i], rows[j])
  }

  ghost predicate Inv(s: State) {
    Unique(s.rows) && forall i :: i in s.rows ==> i < s.nextId
  }

  /** The call inserts a contact that is taken, because the lookup that would have told failed. */
  predicate CreatesBlindly(s: State, tenant: nat, request: Request, l: Lookups) {
    !CreateConflicts(s.rows, tenant, Trimmed(request), l) && CreateConflicts(s.rows, tenant, Trimmed(request), ANSWERED)
  }

  predicate UpdatesBlindly(s: State, tenant: nat, id: nat, req: Request, l: Lookups) {
    Visible(s.rows, tenant, id) && !UpdateConflicts(s.rows, tenant, id, req, l) && UpdateConflicts(s.rows, tenant, id, req, ANSWERED)
  }

  lemma IsClash(rows: Table, i: nat, j: nat)
    requires i in rows && j in rows && i != j && Clashes(rows[i], rows[j])
    ensures !Unique(rows)
  {}

  /** A guest with a taken contact breaks uniqueness. */
  lemma TakenContactClashes(rows: Table, after: Table, id: nat, g: Guest)
    requires id in after && after[id] == g && !g.deleted
    requires forall i :: i in rows && i != id ==> i in after && after[i] == rows[i]
    requires || (g.email.Some? && EmailTaken(rows, g.tenant, g.email.value) && (id in rows ==> rows[id].email != g.email))
             || (g.phone.Some? && PhoneTaken(rows, g.tenant, g.phone.value) && (id in rows ==> rows[id].phone != g.phone))
    ensures !Unique(after)
  {
    if g.email.Some? && EmailTaken(rows, g.tenant, g.email.value) && (id in rows ==> rows[id].email != g.email) {
      var i :| i in rows && HasEmail(rows[i], g.tenant, g.email.value);
      IsClash(after, i, id);
    } else {
      var i :| i in rows && HasPhone(rows[i], g.tenant, g.phone.value);
      IsClash(after, i, id);
    }
  }

  /** Creation keeps contacts distinct if and only if it does not insert after a failed lookup of a taken one. */
  lemma CreateKeepsInv(s: State, tenant: nat, request: Request, l: Lookups)
    requires Inv(s)
    ensures Inv(CreateStep(s, tenant, request, l)) <==> !CreatesBlindly(s, tenant, request, l)
  {
    hide Text.Trim;
    var req := Trimmed(request);
    if CreatesBlindly(s, tenant, request, l) {
      TakenContactClashes(s.rows, CreateStep(s, tenant, request, l).rows, s.nextId, NewGuest(tenant, req));
    } else if !CreateConflicts(s.rows, tenant, req, l) {
      var g := NewGuest(tenant, req);
      forall i | i in s.rows ensures !Clashes(s.rows[i], g) && !Clashes(g, s.rows[i]) {
        assert req.email != "" ==> !HasEmail(s.rows[i], tenant, req.email);
        assert req.phone != "" ==> !HasPhone(s.rows[i], tenant, req.phone);
      }
    }
  }

  /** Update keeps contacts distinct if and only if it does not write after a failed lookup of a taken one. */
  lemma UpdateKeepsInv(s: State, tenant: nat, id: nat, req: Request, l: Lookups)
    requires Inv(s)
    ensures Inv(UpdateStep(s, tenant, id, req, l)) <==> !UpdatesBlindly(s, tenant, id, req, l)
  {
    if UpdatesBlindly(s, tenant, id, req, l) {
      TakenContactClashes(s.rows, UpdateStep(s, tenant, id, req, l).rows, id, ApplyUpdate(s.rows[id], req));
    } else if Visible(s.rows, tenant, id) && !UpdateConflicts(s.rows, tenant, id, req, l) {
      var g := ApplyUpdate(s.rows[id], req);
      forall i | i in s.rows && i != id ensures !Clashes(s.rows[i], g) && !Clashes(g, s.rows[i]) {
        assert !Clashes(s.rows[i], s.rows[id]);
        assert req.email != "" && s.rows[id].email != Some(req.email) ==> !HasEmail(s.rows[i], tenant, req.email);
        assert req.phone != "" && s.rows[id].phone != Some(req.phone) ==> !HasPhone(s.rows[i], tenant, req.phone);
      }
    }
  }

  lemma {:induction false} InsertAllDomain(rows: Table, firstId: nat, guests: seq<Guest>, i: nat)
    requires forall k :: k in rows ==> k < firstId
    ensures i in InsertAll(rows, firstId, guests) <==> i in rows || firstId <= i < firstId + |guests|
    ensures i in rows ==> InsertAll(rows, firstId, guests)[i] == rows[i]
    ensures firstId <= i < firstId + |guests| ==> InsertAll(rows, firstId, guests)[i] == guests[i - firstId]
  {
    if guests != [] {
      InsertAllDomain(rows, firstId, guests[..|guests| - 1], i);
    }
  }

  lemma InsertAllKeepsInv(s: State, guests: seq<Guest>)
    requires Inv(s)
    requires forall k, i :: 0 <= k < |guests| && i in s.rows ==> !Clashes(s.rows[i], guests[k])
    requires forall k, l :: 0 <= k < l < |guests| ==> !Clashes(guests[k], guests[l])
    ensures Inv(State(InsertAll(s.rows, s.nextId, guests), s.nextId + |guests|))
  {
    var rows := InsertAll(s.rows, s.nextId, guests);
    forall i | i in rows ensures i < s.nextId + |guests| {
      InsertAllDomain(s.rows, s.nextId, guests, i);
    }
    forall i, j | i in rows && j in rows && i != j ensures !Clashes(rows[i], rows[j]) {
      InsertAllDomain(s.rows, s.nextId, guests, i);
      InsertAllDomain(s.rows, s.nextId, guests, j);
      hide InsertAll;
      if i in s.rows && j !in s.rows {
        assert !Clashes(s.rows[i], guests[j - s.nextId]);
      } else if i !in s.rows && j in s.rows {
        assert !Clashes(s.rows[j], guests[i - s.nextId]);
      } else if i !in s.rows {
        var k, l := i - s.nextId, j - s.nextId;
        if k < l { assert !Clashes(guests[k], guests[l]); } else { assert !Clashes(guests[l], guests[k]); }
      }
    }
  }

  /** With unique contacts, the one row a LIMIT 1 lookup returns is the only one there is. */
  lemma LookupIsExact(s: State, tenant: nat, i: nat, j: nat, contact: string)
    requires Inv(s) && i in s.rows && j in s.rows
    requires (HasPhone(s.rows[i], tenant, contact) && HasPhone(s.rows[j], tenant, contact))
             || (HasEmail(s.rows[i], tenant, contact) && HasEmail(s.rows[j], tenant, contact))
    ensures i == j
  {
    assert i != j ==> !Clashes(s.rows[i], s.rows[j]);
  }
}
