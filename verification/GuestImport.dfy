/**
 The CSV guest import: rows are parsed and validated, checked against the guest table, checked
 against each other, and what is left is inserted. In the event mode a row that matches exactly
 one existing guest reuses that guest instead of being an error.

 The CSV tokenizer's output is the input here: a header map and one record per line.
 */
module GuestImport {
  import opened Common
  import opened Guests
  import PhoneNumbers
  import Slugs
  import Text

  datatype Record = Malformed | Cells(cells: seq<string>)

  datatype Problem =
    | ParseFailure
    | NameRequired
    | NameTooShort
    | NameTooLong
    | BadEmail
    | BadPhone
    | BadGuestType
    | PhoneExists(id: nat)
    | EmailExists(id: nat)

  datatype Row = Row(rowNum: nat, fullName: string, phone: string, email: string, guestType: string, errors: seq<Problem>)

  type Header = map<string, nat>

  datatype Result = Result(
    totalRows: nat,
    successCount: nat,
    errorCount: nat,
    importedIds: seq<nat>,
    errors: seq<Row>)

  // --- Parsing -----------------------------------------------------------------------------------------

  /** The first listed column the header has and the record reaches. */
  function Field(cells: seq<string>, header: Header, keys: seq<string>): string {
    if keys == [] then ""
    else if keys[0] in header && header[keys[0]] < |cells| then Text.Trim(cells[header[keys[0]]])
    else Field(cells, header, keys[1..])
  }

  const GUEST_TYPES := {
    "vip", "vvip", "family", "friend", "colleague", "government", "media", "sponsor", "vendor",
    "speaker", "participant", "internal", "protocol", "security", "general"}

  function NormalizeGuestType(value: string): string {
    var v := Slugs.Lower(Text.Trim(value));
    if v in {"regular", "general", "umum", "tamu"} then "general"
    else if v in {"family", "keluarga"} then "family"
    else if v in {"friend", "teman"} then "friend"
    else if v in {"colleague", "rekan", "rekan kerja"} then "colleague"
    else v
  }

  function ParseRow(cells: seq<string>, header: Header, rowNum: nat): Row {
    Row(rowNum,
        Field(cells, header, ["full_name", "name", "fullname"]),
        PhoneNumbers.Normalize(Field(cells, header, ["phone", "phone_number", "mobile"])),
        Field(cells, header, ["email", "email_address"]),
        NormalizeGuestType(Field(cells, header, ["guest_type", "type", "guesttype"])),
        [])
  }

  predicate IsBlank(cells: seq<string>) {
    forall k :: 0 <= k < |cells| ==> Text.Trim(cells[k]) == ""
  }

  /** A blank line is skipped, a malformed one kept as an empty row with a parse error. */
  function LineRows(record: Record, header: Header, rowNum: nat): seq<Row> {
    match record
    case Malformed => [Row(rowNum, "", "", "", "", [ParseFailure])]
    case Cells(cells) => if IsBlank(cells) then [] else [ParseRow(cells, header, rowNum)]
  }

  function Parsed(records: seq<Record>, header: Header): seq<Row> {
    if records == [] then []
    else
      var last := |records| - 1;
      Parsed(records[..last], header) + LineRows(records[last], header, last + 2)
  }

  method ParseRows(records: seq<Record>, header: Header) returns (rows: seq<Row>)
    ensures rows == Parsed(records, header)
  {
    hide ParseRow, IsBlank;
    rows := [];
    var rowNum := 2;
    for k := 0 to |records|
      invariant rows == Parsed(records[..k], header) && rowNum == k + 2
    {
      assert records[..k + 1][..k] == records[..k];
      match records[k] {
        case Malformed =>
          rows := rows + [Row(rowNum, "", "", "", "", [ParseFailure])];
        case Cells(cells) =>
          if !IsBlank(cells) {
            rows := rows + [ParseRow(cells, header, rowNum)];
          }
      }
      rowNum := rowNum + 1;
    }
    assert records[..|records|] == records;
  }

  // --- Validation ----------------------------------------------------------------------------------------

  /** Length of the UTF-8 encoding. */
  function ByteLength(s: string): nat {
    if s == "" then 0
    else
      var c := s[|s| - 1];
      ByteLength(s[..|s| - 1])
      + if c < '\U{80}' then 1 else if c < '\U{800}' then 2 else if c < '\U{10000}' then 3 else 4
  }

  predicate IsLetter(c: char) {
    'a' <= c <= 'z' || 'A' <= c <= 'Z'
  }

  predicate IsLocalChar(c: char) {
    IsLetter(c) || '0' <= c <= '9' || c in {'.', '_', '%', '+', '-'}
  }

  predicate IsDomainChar(c: char) {
    IsLetter(c) || '0' <= c <= '9' || c in {'.', '-'}
  }

  /** A non-empty local part, an at sign, a non-empty domain, a dot and two or more letters. */
  predicate IsValidEmail(email: string) {
    && |email| <= 254
    && exists at, dot :: 0 < at < |email| && at + 1 < dot < |email| - 2 && email[at] == '@' && email[dot] == '.'
         && (forall k :: 0 <= k < at ==> IsLocalChar(email[k]))
         && (forall k :: at < k < dot ==> IsDomainChar(email[k]))
         && (forall k :: dot < k < |email| ==> IsLetter(email[k]))
  }

  function NameProblems(fullName: string): seq<Problem> {
    if fullName == "" then [NameRequired]
    else if |fullName| < 2 then [NameTooShort]
    else if ByteLength(fullName) > 255 then [NameTooLong]
    else []
  }

  /** All problems of a row; what the row already recorded is overwritten. */
  function Problems(row: Row): seq<Problem> {
    NameProblems(row.fullName)
    + (if row.email != "" && !IsValidEmail(row.email) then [BadEmail] else [])
    + (if row.phone != "" && !PhoneNumbers.Valid(row.phone) then [BadPhone] else [])
    + (if row.guestType != "" && row.guestType !in GUEST_TYPES then [BadGuestType] else [])
  }

  /** A validated row's guest and where the row stands. */
  datatype Candidate = Candidate(row: nat, guest: Guest)

  function ToGuest(row: Row, tenant: nat): Guest {
    NewGuest(tenant, Request(row.fullName, row.phone, row.email, row.guestType))
  }

  function Candidates(rows: seq<Row>, tenant: nat): (candidates: seq<Candidate>)
    ensures forall k :: 0 <= k < |candidates| ==> candidates[k].row < |rows|
  {
    if rows == [] then []
    else
      var last := |rows| - 1;
      var rest := Candidates(rows[..last], tenant);
      if Problems(rows[last]) == [] then rest + [Candidate(last, ToGuest(rows[last], tenant))] else rest
  }

  method ValidateRows(parsed: seq<Row>, tenant: nat)
    returns (rows: seq<Row>, candidates: seq<Candidate>, errors: seq<Row>, errorCount: nat)
    ensures |rows| == |parsed| && forall k :: 0 <= k < |rows| ==> rows[k] == parsed[k].(errors := Problems(parsed[k]))
    ensures candidates == Candidates(parsed, tenant)
    ensures |errors| == errorCount && |candidates| + errorCount == |parsed|
  {
    hide Problems, ToGuest;
    rows, candidates, errors, errorCount := parsed, [], [], 0;
    for k := 0 to |parsed|
      invariant |rows| == |parsed|
      invariant forall i :: 0 <= i < k ==> rows[i] == parsed[i].(errors := Problems(parsed[i]))
      invariant forall i :: k <= i < |rows| ==> rows[i] == parsed[i]
      invariant candidates == Candidates(parsed[..k], tenant)
      invariant |errors| == errorCount && |candidates| + errorCount == k
    {
      assert parsed[..k + 1][..k] == parsed[..k];
      rows := rows[k := parsed[k].(errors := Problems(parsed[k]))];
      if |rows[k].errors| == 0 {
        candidates := candidates + [Candidate(k, ToGuest(parsed[k], tenant))];
      } else {
        errorCount := errorCount + 1;
        errors := errors + [rows[k]];
      }
    }
    assert parsed[..|parsed|] == parsed;
  }

  lemma {:induction false} CandidatesComeFromRows(rows: seq<Row>, tenant: nat, k: nat)
    requires k < |Candidates(rows, tenant)|
    ensures var c := Candidates(rows, tenant)[k];
            c.guest == ToGuest(rows[c.row], tenant) && rows[c.row].fullName != "" && Problems(rows[c.row]) == []
  {
    var last := |rows| - 1;
    if k < |Candidates(rows[..last], tenant)| {
      CandidatesComeFromRows(rows[..last], tenant, k);
    } else {
      assert NameProblems(rows[last].fullName) == [];
    }
  }

  // --- Duplicates in the table -------------------------------------------------------------------------------

  function PhoneKey(phone: string): string { "phone:" + phone }

  function EmailKey(email: string): string { "email:" + email }

  lemma KeysAreInjective(a: string, b: string)
    ensures PhoneKey(a) == PhoneKey(b) ==> a == b
    ensures EmailKey(a) == EmailKey(b) ==> a == b
    ensures PhoneKey(a) != EmailKey(b)
  {
    assert PhoneKey(a)[6..] == a && PhoneKey(b)[6..] == b;
    assert EmailKey(a)[6..] == a && EmailKey(b)[6..] == b;
    assert PhoneKey(a)[0] == 'p' && EmailKey(b)[0] == 'e';
  }

  type Duplicates = map<string, nat>

  /** The map names, for every listed phone and email that is taken, a live guest that has it, and nothing else. */
  ghost predicate PhonesFound(found: Duplicates, rows: Table, tenant: nat, phones: seq<string>) {
    forall p :: p in phones ==>
      && (PhoneKey(p) in found <==> PhoneTaken(rows, tenant, p))
      && (PhoneKey(p) in found ==> found[PhoneKey(p)] in rows && HasPhone(rows[found[PhoneKey(p)]], tenant, p))
  }

  ghost predicate EmailsFound(found: Duplicates, rows: Table, tenant: nat, emails: seq<string>) {
    forall e :: e in emails ==>
      && (EmailKey(e) in found <==> EmailTaken(rows, tenant, e))
      && (EmailKey(e) in found ==> found[EmailKey(e)] in rows && HasEmail(rows[found[EmailKey(e)]], tenant, e))
  }

  method FindPhones(rows: Table, tenant: nat, phones: seq<string>) returns (found: Duplicates)
    ensures PhonesFound(found, rows, tenant, phones)
    ensures forall e :: EmailKey(e) !in found
  {
    found := map[];
    var todo := rows.Keys;
    while todo != {}
      invariant todo <= rows.Keys
      invariant forall e :: EmailKey(e) !in found
      invariant forall p :: PhoneKey(p) in found ==>
                  found[PhoneKey(p)] in rows && HasPhone(rows[found[PhoneKey(p)]], tenant, p)
      invariant forall i, p :: i in rows && i !in todo && p in phones && HasPhone(rows[i], tenant, p) ==> PhoneKey(p) in found
      decreases |todo|
    {
      var id :| id in todo;
      todo := todo - {id};
      var g := rows[id];
      if !g.deleted && g.tenant == tenant && g.phone.Some? && g.phone.value in phones {
        forall p ensures PhoneKey(p) == PhoneKey(g.phone.value) ==> p == g.phone.value {
          KeysAreInjective(p, g.phone.value);
        }
        forall e ensures EmailKey(e) != PhoneKey(g.phone.value) {
          KeysAreInjective(g.phone.value, e);
        }
        hide PhoneKey, EmailKey;
        found := found[PhoneKey(g.phone.value) := id];
      }
    }
  }

  method FindEmails(rows: Table, tenant: nat, emails: seq<string>, phonesFound: Duplicates) returns (found: Duplicates)
    requires forall e :: EmailKey(e) !in phonesFound
    ensures EmailsFound(found, rows, tenant, emails)
    ensures forall p :: (PhoneKey(p) in found <==> PhoneKey(p) in phonesFound)
                        && (PhoneKey(p) in found ==> found[PhoneKey(p)] == phonesFound[PhoneKey(p)])
  {
    found := phonesFound;
    var todo := rows.Keys;
    while todo != {}
      invariant todo <= rows.Keys
      invariant forall p :: (PhoneKey(p) in found <==> PhoneKey(p) in phonesFound)
                            && (PhoneKey(p) in found ==> found[PhoneKey(p)] == phonesFound[PhoneKey(p)])
      invariant forall e :: EmailKey(e) in found ==>
                  found[EmailKey(e)] in rows && HasEmail(rows[found[EmailKey(e)]], tenant, e)
      invariant forall i, e :: i in rows && i !in todo && e in emails && HasEmail(rows[i], tenant, e) ==> EmailKey(e) in found
      decreases |todo|
    {
      var id :| id in todo;
      todo := todo - {id};
      var g := rows[id];
      if !g.deleted && g.tenant == tenant && g.email.Some? && g.email.value in emails {
        forall e ensures EmailKey(e) == EmailKey(g.email.value) ==> e == g.email.value {
          KeysAreInjective(e, g.email.value);
        }
        forall p ensures PhoneKey(p) != EmailKey(g.email.value) {
          KeysAreInjective(p, g.email.value);
        }
        hide PhoneKey, EmailKey;
        found := found[EmailKey(g.email.value) := id];
      }
    }
  }

  method CheckDuplicates(rows: Table, tenant: nat, phones: seq<string>, emails: seq<string>) returns (found: Duplicates)
    ensures PhonesFound(found, rows, tenant, phones) && EmailsFound(found, rows, tenant, emails)
  {
    hide PhoneKey, EmailKey;
    found := FindPhones(rows, tenant, phones);
    found := FindEmails(rows, tenant, emails, found);
  }

  /** A candidate whose phone or email some live guest of the tenant already has. */
  predicate InTable(rows: Table, tenant: nat, g: Guest) {
    (g.phone.Some? && PhoneTaken(rows, tenant, g.phone.value)) || (g.email.Some? && EmailTaken(rows, tenant, g.email.value))
  }

  function NotInTable(candidates: seq<Candidate>, rows: Table, tenant: nat): seq<Candidate> {
    if candidates == [] then []
    else
      var last := |candidates| - 1;
      var rest := NotInTable(candidates[..last], rows, tenant);
      if InTable(rows, tenant, candidates[last].guest) then rest else rest + [candidates[last]]
  }

  function DuplicateProblems(g: Guest, found: Duplicates): seq<Problem> {
    (if g.phone.Some? && PhoneKey(g.phone.value) in found then [PhoneExists(found[PhoneKey(g.phone.value)])] else [])
    + (if g.email.Some? && EmailKey(g.email.value) in found then [EmailExists(found[EmailKey(g.email.value)])] else [])
  }

  function DuplicateIds(g: Guest, found: Duplicates): set<nat> {
    (if g.phone.Some? && PhoneKey(g.phone.value) in found then {found[PhoneKey(g.phone.value)]} else {})
    + (if g.email.Some? && EmailKey(g.email.value) in found then {found[EmailKey(g.email.value)]} else {})
  }

  /** The live guests of the tenant that have the candidate's phone or email. */
  function Owners(rows: Table, tenant: nat, g: Guest): set<nat> {
    set i | i in rows && Visible(rows, tenant, i) && SharesContact(g, rows[i])
  }

  ghost function Only(ids: set<nat>): nat
    requires ids != {}
  {
    var id :| id in ids; id
  }

  /** The guests the event mode reuses: one for each candidate with exactly one owner of its contacts. */
  ghost function Reused(candidates: seq<Candidate>, rows: Table, tenant: nat): seq<nat> {
    if candidates == [] then []
    else
      var last := |candidates| - 1;
      var rest := Reused(candidates[..last], rows, tenant);
      var owners := Owners(rows, tenant, candidates[last].guest);
      if |owners| == 1 then rest + [Only(owners)] else rest
  }

  lemma SingletonHasOne(ids: set<nat>, id: nat)
    requires id in ids && |ids| == 1
    ensures id == Only(ids)
  {
    var rest := ids - {id};
    assert |rest| == 0;
    assert ids == rest + {id};
  }

  /** The lookup answers the questions this candidate will ask. */
  ghost predicate Answered(g: Guest, found: Duplicates, rows: Table, tenant: nat) {
    && (g.phone.Some? ==>
          && (PhoneKey(g.phone.value) in found <==> PhoneTaken(rows, tenant, g.phone.value))
          && (PhoneKey(g.phone.value) in found ==>
                found[PhoneKey(g.phone.value)] in rows && HasPhone(rows[found[PhoneKey(g.phone.value)]], tenant, g.phone.value)))
    && (g.email.Some? ==>
          && (EmailKey(g.email.value) in found <==> EmailTaken(rows, tenant, g.email.value))
          && (EmailKey(g.email.value) in found ==>
                found[EmailKey(g.email.value)] in rows && HasEmail(rows[found[EmailKey(g.email.value)]], tenant, g.email.value)))
  }

  lemma AnsweredMeans(g: Guest, found: Duplicates, rows: Table, tenant: nat)
    requires Answered(g, found, rows, tenant)
    ensures DuplicateProblems(g, found) != [] <==> InTable(rows, tenant, g)
    ensures DuplicateIds(g, found) != {} <==> InTable(rows, tenant, g)
    ensures forall id :: id in DuplicateIds(g, found) ==> Visible(rows, tenant, id) && SharesContact(g, rows[id])
    ensures Unique(rows) ==> DuplicateIds(g, found) == Owners(rows, tenant, g)
  {
    forall i | i in Owners(rows, tenant, g) && Unique(rows) ensures i in DuplicateIds(g, found) {
      OwnerIsFound(g, found, rows, tenant, i);
    }
    hide PhoneKey, EmailKey, PhoneTaken, EmailTaken;
  }

  lemma OwnerIsFound(g: Guest, found: Duplicates, rows: Table, tenant: nat, i: nat)
    requires Answered(g, found, rows, tenant) && Unique(rows) && i in Owners(rows, tenant, g)
    ensures i in DuplicateIds(g, found)
  {
    hide PhoneKey, EmailKey;
    if g.phone.Some? && g.phone == rows[i].phone {
      assert HasPhone(rows[i], tenant, g.phone.value);
      var j := found[PhoneKey(g.phone.value)];
      assert !Clashes(rows[i], rows[j]) || i == j;
    } else {
      assert HasEmail(rows[i], tenant, g.email.value);
      var j := found[EmailKey(g.email.value)];
      assert !Clashes(rows[i], rows[j]) || i == j;
    }
  }

  /** The phones and emails the duplicate query is asked about. */
  method CollectContacts(candidates: seq<Candidate>) returns (phones: seq<string>, emails: seq<string>)
    ensures forall k :: 0 <= k < |candidates| && candidates[k].guest.phone.Some? ==> candidates[k].guest.phone.value in phones
    ensures forall k :: 0 <= k < |candidates| && candidates[k].guest.email.Some? ==> candidates[k].guest.email.value in emails
  {
    phones, emails := [], [];
    for n := 0 to |candidates|
      invariant forall k :: 0 <= k < n && candidates[k].guest.phone.Some? ==> candidates[k].guest.phone.value in phones
      invariant forall k :: 0 <= k < n && candidates[k].guest.email.Some? ==> candidates[k].guest.email.value in emails
    {
      var g := candidates[n].guest;
      if g.phone.Some? {
        phones := phones + [g.phone.value];
      }
      if g.email.Some? {
        emails := emails + [g.email.value];
      }
    }
  }

  // --- Duplicate rows become errors or reused guests -------------------------------------------------------

  /** The row an error is attached to: same name, and same phone or email. */
  predicate Matches(row: Row, g: Guest) {
    && row.fullName == g.fullName
    && ((g.phone.Some? && row.phone == g.phone.value) || (g.email.Some? && row.email == g.email.value))
  }

  predicate IsSource(row: Row, g: Guest) {
    row.fullName == g.fullName && g.phone == Optional(row.phone) && g.email == Optional(row.email)
  }

  ghost predicate Sourced(candidates: seq<Candidate>, rows: seq<Row>) {
    forall k :: 0 <= k < |candidates| ==> candidates[k].row < |rows| && IsSource(rows[candidates[k].row], candidates[k].guest)
  }

  predicate IsFirstMatch(rows: seq<Row>, g: Guest, k: nat) {
    k < |rows| && Matches(rows[k], g) && forall j :: 0 <= j < k ==> !Matches(rows[j], g)
  }

  /** Reports a duplicate on the first row that matches; there is one because the candidate's own row does. */
  method ReportDuplicate(rows: seq<Row>, c: Candidate, problems: seq<Problem>) returns (after: seq<Row>, reported: Row, at: nat)
    requires c.row < |rows| && IsSource(rows[c.row], c.guest) && (c.guest.phone.Some? || c.guest.email.Some?)
    ensures |after| == |rows|
    ensures forall k :: 0 <= k < |rows| ==> after[k] == rows[k].(errors := after[k].errors)
    ensures Matches(reported, c.guest) && reported in after
    ensures IsFirstMatch(rows, c.guest, at) && after == rows[at := reported]
    ensures reported == rows[at].(errors := rows[at].errors + problems)
    ensures at == c.row <==> forall k :: 0 <= k < c.row ==> !Matches(rows[k], c.guest)
  {
    var j := 0;
    assert Matches(rows[c.row], c.guest);
    while !Matches(rows[j], c.guest)
      invariant j <= c.row && forall k :: 0 <= k < j ==> !Matches(rows[k], c.guest)
      decreases c.row - j
    {
      j := j + 1;
    }
    reported := rows[j].(errors := rows[j].errors + problems);
    after, at := rows[j := reported], j;
  }

  method MarkDuplicates(
    validated: seq<Row>, candidates: seq<Candidate>, found: Duplicates, reuse: bool, invalid: seq<Row>,
    ghost table: Table, ghost tenant: nat)
    returns (remaining: seq<Candidate>, reused: seq<nat>, errors: seq<Row>, errorCount: nat)
    requires Sourced(candidates, validated)
    requires forall k :: 0 <= k < |candidates| ==> Answered(candidates[k].guest, found, table, tenant)
    ensures remaining == NotInTable(candidates, table, tenant)
    ensures |errors| == errorCount && |remaining| + |reused| + (errorCount - |invalid|) == |candidates|
    ensures !reuse ==> reused == []
    ensures reuse && Unique(table) ==> reused == Reused(candidates, table, tenant)
    ensures forall id :: id in reused ==> Visible(table, tenant, id)
  {
    hide Answered, InTable, DuplicateProblems, DuplicateIds, Visible, Owners, Unique, Only;
    remaining, reused, errors, errorCount := [], [], invalid, |invalid|;
    var rows := validated;
    for n := 0 to |candidates|
      invariant Sourced(candidates, rows)
      invariant remaining == NotInTable(candidates[..n], table, tenant)
      invariant |errors| == errorCount && |remaining| + |reused| + (errorCount - |invalid|) == n
      invariant !reuse ==> reused == []
      invariant reuse && Unique(table) ==> reused == Reused(candidates[..n], table, tenant)
      invariant forall id :: id in reused ==> Visible(table, tenant, id)
    {
      assert candidates[..n + 1][..n] == candidates[..n];
      var c := candidates[n];
      AnsweredMeans(c.guest, found, table, tenant);
      var problems := DuplicateProblems(c.guest, found);
      var ids := DuplicateIds(c.guest, found);
      if problems != [] {
        if reuse && |ids| == 1 {
          var id :| id in ids;
          SingletonHasOne(ids, id);
          reused := reused + [id];
        } else {
          errorCount := errorCount + 1;
          DuplicateHasContact(c.guest, table, tenant);
          var reported: Row, at: nat;
          rows, reported, at := ReportDuplicate(rows, c, problems);
          errors := errors + [reported];
        }
      } else {
        remaining := remaining + [c];
      }
    }
    assert candidates[..|candidates|] == candidates;
  }

  lemma DuplicateHasContact(g: Guest, table: Table, tenant: nat)
    requires InTable(table, tenant, g)
    ensures g.phone.Some? || g.email.Some?
  {}

  // --- Duplicates within the file ----------------------------------------------------------------------------

  /** No earlier candidate shares a phone or an email with the `k`th. */
  predicate FirstOfItsKind(candidates: seq<Candidate>, k: nat)
    requires k < |candidates|
  {
    forall j :: 0 <= j < k ==> !SharesContact(candidates[k].guest, candidates[j].guest)
  }

  function WithoutRepeats(candidates: seq<Candidate>): (kept: seq<Candidate>)
    ensures |kept| <= |candidates|
  {
    if candidates == [] then []
    else
      var last := |candidates| - 1;
      var rest := WithoutRepeats(candidates[..last]);
      if FirstOfItsKind(candidates, last) then rest + [candidates[last]] else rest
  }

  function Phones(candidates: seq<Candidate>): set<string> {
    set j | 0 <= j < |candidates| && candidates[j].guest.phone.Some? :: candidates[j].guest.phone.value
  }

  function Emails(candidates: seq<Candidate>): set<string> {
    set j | 0 <= j < |candidates| && candidates[j].guest.email.Some? :: candidates[j].guest.email.value
  }

  predicate Seen(g: Guest, phones: set<string>, emails: set<string>) {
    (g.phone.Some? && g.phone.value in phones) || (g.email.Some? && g.email.value in emails)
  }

  lemma SeenMeansRepeated(candidates: seq<Candidate>, k: nat)
    requires k < |candidates|
    ensures Seen(candidates[k].guest, Phones(candidates[..k]), Emails(candidates[..k])) <==> !FirstOfItsKind(candidates, k)
  {
    var before, g := candidates[..k], candidates[k].guest;
    if Seen(g, Phones(before), Emails(before)) {
      var j :| 0 <= j < k && SharesContact(g, before[j].guest);
    } else {
      forall j | 0 <= j < k ensures !SharesContact(g, candidates[j].guest) {
        var b := before[j].guest;
        assert b.phone.Some? ==> b.phone.value in Phones(before);
        assert b.email.Some? ==> b.email.value in Emails(before);
      }
    }
  }

  lemma SeenGrows(candidates: seq<Candidate>, c: Candidate)
    ensures Phones(candidates + [c]) == Phones(candidates) + if c.guest.phone.Some? then {c.guest.phone.value} else {}
    ensures Emails(candidates + [c]) == Emails(candidates) + if c.guest.email.Some? then {c.guest.email.value} else {}
  {
    var all := candidates + [c];
    assert forall j :: 0 <= j < |candidates| ==> all[j] == candidates[j];
    assert all[|candidates|] == c;
    assert forall x :: x in Phones(candidates) ==> x in Phones(all) by {
      forall x | x in Phones(candidates) ensures x in Phones(all) {
        var j :| 0 <= j < |candidates| && candidates[j].guest.phone == Some(x);
        assert all[j].guest.phone == Some(x);
      }
    }
    assert forall x :: x in Emails(candidates) ==> x in Emails(all) by {
      forall x | x in Emails(candidates) ensures x in Emails(all) {
        var j :| 0 <= j < |candidates| && candidates[j].guest.email == Some(x);
        assert all[j].guest.email == Some(x);
      }
    }
  }

  method DropRepeats(candidates: seq<Candidate>) returns (kept: seq<Candidate>)
    ensures kept == WithoutRepeats(candidates)
  {
    kept := [];
    var seenPhones: set<string>, seenEmails: set<string> := {}, {};
    hide FirstOfItsKind;
    for n := 0 to |candidates|
      invariant kept == WithoutRepeats(candidates[..n])
      invariant seenPhones == Phones(candidates[..n]) && seenEmails == Emails(candidates[..n])
    {
      var upTo := candidates[..n + 1];
      assert upTo == candidates[..n] + [candidates[n]] && upTo[..n] == candidates[..n];
      SeenMeansRepeated(upTo, n);
      SeenGrows(candidates[..n], candidates[n]);
      hide Phones, Emails;
      var g := candidates[n].guest;
      var repeated := false;
      if g.phone.Some? {
        repeated := g.phone.value in seenPhones;
        seenPhones := seenPhones + {g.phone.value};
      }
      if g.email.Some? {
        repeated := repeated || g.email.value in seenEmails;
        seenEmails := seenEmails + {g.email.value};
      }
      if !repeated {
        kept := kept + [candidates[n]];
      }
    }
    assert candidates[..|candidates|] == candidates;
  }

  // --- The import ------------------------------------------------------------------------------------------------

  /** What an import inserts: it does not depend on the mode. */
  function Accepted(rows: Table, tenant: nat, records: seq<Record>, header: Header): seq<Candidate> {
    WithoutRepeats(NotInTable(Candidates(Parsed(records, header), tenant), rows, tenant))
  }

  function GuestsOf(candidates: seq<Candidate>): (guests: seq<Guest>)
    ensures |guests| == |candidates|
    ensures forall k :: 0 <= k < |guests| ==> guests[k] == candidates[k].guest
  {
    seq(|candidates|, k requires 0 <= k < |candidates| => candidates[k].guest)
  }

  function ImportStep(s: State, tenant: nat, records: seq<Record>, header: Header): State {
    var guests := GuestsOf(Accepted(s.rows, tenant, records, header));
    State(InsertAll(s.rows, s.nextId, guests), s.nextId + |guests|)
  }

  predicate HeaderOk(header: Header) {
    "full_name" in header || "name" in header || "fullname" in header
  }

  /** Rows that only repeat a contact of an earlier row of the same file. */
  function DroppedRepeats(rows: Table, tenant: nat, records: seq<Record>, header: Header): nat {
    var remaining := NotInTable(Candidates(Parsed(records, header), tenant), rows, tenant);
    |remaining| - |WithoutRepeats(remaining)|
  }

  /** Whether the duplicate query and the bulk insert succeed; a failure ends the import with nothing written. */
  datatype Database = Database(answers: bool, stores: bool)

  /** What an import is about to do: the guests to insert, those to reuse, and the rows to report. */
  datatype Plan = Plan(totalRows: nat, final: seq<Candidate>, reused: seq<nat>, errors: seq<Row>, errorCount: nat)

  /** Every row is accounted for, and the reused guests are live and, with distinct contacts, the single owners. */
  ghost predicate IsPlan(plan: Plan, rows: Table, tenant: nat, records: seq<Record>, header: Header, reuse: bool) {
    && plan.totalRows == |Parsed(records, header)|
    && plan.errorCount == |plan.errors|
    && plan.totalRows == |plan.final| + |plan.reused| + plan.errorCount + DroppedRepeats(rows, tenant, records, header)
    && plan.final == Accepted(rows, tenant, records, header)
    && (!reuse ==> plan.reused == [])
    && (forall k :: 0 <= k < |plan.reused| ==> Visible(rows, tenant, plan.reused[k]))
    && (reuse && Unique(rows) ==> plan.reused == Reused(Candidates(Parsed(records, header), tenant), rows, tenant))
  }

  method PlanImport(rows: Table, tenant: nat, records: seq<Record>, header: Header, reuse: bool, answers: bool) returns (plan: Option<Plan>)
    ensures plan.Some? <==> answers || Candidates(Parsed(records, header), tenant) == []
    ensures plan.Some? ==> IsPlan(plan.value, rows, tenant, records, header, reuse)
  {
    hide Parsed, Candidates, NotInTable, WithoutRepeats, Visible, Reused, Unique, Problems;
    var parsed := ParseRows(records, header);
    var validated, candidates, invalid, invalidCount := ValidateRows(parsed, tenant);
    if |candidates| > 0 && !answers {
      return None;
    }
    var remaining, reused, errors, errorCount := CheckAgainstTable(rows, tenant, parsed, validated, candidates, invalid, reuse);
    var final := DropRepeats(remaining);
    return Some(Plan(|parsed|, final, reused, errors, errorCount));
  }

  /** The counters and lists of the result follow the plan; new ids come first. */
  ghost predicate Reports(r: Result, plan: Plan, firstId: nat) {
    && r.totalRows == plan.totalRows && r.errors == plan.errors && r.errorCount == plan.errorCount
    && r.successCount == |r.importedIds| == |plan.final| + |plan.reused|
    && r.importedIds[|plan.final|..] == plan.reused
    && forall k :: 0 <= k < |plan.final| ==> r.importedIds[k] == firstId + k
  }

  /** The whole import, in either mode. */
  method ImportCSV(service: GuestService, tenant: nat, records: seq<Record>, header: Header, reuse: bool, db: Database)
    returns (result: Option<Result>)
    modifies service
    ensures result.Some? <==>
              && HeaderOk(header)
              && (db.answers || Candidates(Parsed(records, header), tenant) == [])
              && (db.stores || Accepted(old(service.rows), tenant, records, header) == [])
    ensures result.None? ==> service.View() == old(service.View())
    ensures result.Some? ==> service.View() == ImportStep(old(service.View()), tenant, records, header)
    ensures result.Some? ==>
              exists plan :: IsPlan(plan, old(service.rows), tenant, records, header, reuse) && Reports(result.value, plan, old(service.nextId))
  {
    hide HeaderOk, Parsed, Candidates, InsertAll, Accepted;
    if !HeaderOk(header) {
      return None;
    }
    var planned := PlanImport(service.rows, tenant, records, header, reuse, db.answers);
    if planned.None? {
      return None;
    }
    var plan := planned.value;
    assert plan.final == Accepted(service.rows, tenant, records, header);
    hide IsPlan;
    if |plan.final| > 0 && !db.stores {
      return None;
    }
    var firstId := service.nextId;
    service.BulkCreate(GuestsOf(plan.final));
    var ids := seq(|plan.final|, k => firstId + k) + plan.reused;
    result := Some(Result(plan.totalRows, |plan.final| + |plan.reused|, plan.errorCount, ids, plan.errors));
    assert Reports(result.value, plan, firstId);
  }

  /** The table check of an import: collect the contacts, ask once, sort the candidates. */
  method CheckAgainstTable(
    table: Table, tenant: nat, ghost parsed: seq<Row>, rows: seq<Row>, candidates: seq<Candidate>, invalid: seq<Row>, reuse: bool)
    returns (remaining: seq<Candidate>, reused: seq<nat>, errors: seq<Row>, errorCount: nat)
    requires candidates == Candidates(parsed, tenant)
    requires |rows| == |parsed| && forall k :: 0 <= k < |rows| ==> rows[k] == parsed[k].(errors := Problems(parsed[k]))
    ensures remaining == NotInTable(candidates, table, tenant)
    ensures |errors| == errorCount && |remaining| + |reused| + (errorCount - |invalid|) == |candidates|
    ensures !reuse ==> reused == []
    ensures reuse && Unique(table) ==> reused == Reused(candidates, table, tenant)
    ensures forall k :: 0 <= k < |reused| ==> Visible(table, tenant, reused[k])
  {
    var phones, emails := CollectContacts(candidates);
    var found := CheckDuplicates(table, tenant, phones, emails);
    assert Sourced(candidates, rows) by {
      forall k | 0 <= k < |candidates|
        ensures candidates[k].row < |rows| && IsSource(rows[candidates[k].row], candidates[k].guest)
      {
        CandidatesComeFromRows(parsed, tenant, k);
      }
    }
    forall k | 0 <= k < |candidates| ensures Answered(candidates[k].guest, found, table, tenant) {
      hide PhoneKey, EmailKey, PhoneTaken, EmailTaken, Candidates;
    }
    hide *;
    remaining, reused, errors, errorCount := MarkDuplicates(rows, candidates, found, reuse, invalid, table, tenant);
  }

  // --- Identity over whole runs ----------------------------------------------------------------------------------

  lemma {:induction false} NotInTableMembers(candidates: seq<Candidate>, rows: Table, tenant: nat, c: Candidate)
    requires c in NotInTable(candidates, rows, tenant)
    ensures c in candidates && !InTable(rows, tenant, c.guest)
  {
    var last := |candidates| - 1;
    if c in NotInTable(candidates[..last], rows, tenant) {
      NotInTableMembers(candidates[..last], rows, tenant, c);
    }
  }

  lemma {:induction false} WithoutRepeatsMembers(candidates: seq<Candidate>, c: Candidate)
    requires c in WithoutRepeats(candidates)
    ensures c in candidates
  {
    var last := |candidates| - 1;
    if c in WithoutRepeats(candidates[..last]) {
      WithoutRepeatsMembers(candidates[..last], c);
    }
  }

  /** What survives the file check has pairwise different contacts. */
  lemma {:induction false} WithoutRepeatsIsDistinct(candidates: seq<Candidate>, k: nat, l: nat)
    requires k < l < |WithoutRepeats(candidates)|
    ensures !SharesContact(WithoutRepeats(candidates)[l].guest, WithoutRepeats(candidates)[k].guest)
  {
    var last := |candidates| - 1;
    var rest := WithoutRepeats(candidates[..last]);
    if l < |rest| {
      WithoutRepeatsIsDistinct(candidates[..last], k, l);
    } else {
      WithoutRepeatsMembers(candidates[..last], rest[k]);
      var j :| 0 <= j < last && candidates[..last][j] == rest[k];
      assert !SharesContact(candidates[last].guest, candidates[j].guest);
    }
  }

  /** Everything an import inserts is new to the table and new within the file. */
  lemma AcceptedIsNew(rows: Table, tenant: nat, records: seq<Record>, header: Header, c: Candidate)
    requires c in Accepted(rows, tenant, records, header)
    ensures c.guest.tenant == tenant && !InTable(rows, tenant, c.guest)
  {
    AcceptedOrigin(rows, tenant, records, header, c);
    hide InTable, Parsed, Candidates, NotInTable, WithoutRepeats, Problems;
    var candidates := Candidates(Parsed(records, header), tenant);
    WithoutRepeatsMembers(NotInTable(candidates, rows, tenant), c);
    NotInTableMembers(candidates, rows, tenant, c);
  }

  lemma AcceptedIsDistinct(rows: Table, tenant: nat, records: seq<Record>, header: Header, k: nat, l: nat)
    requires k < l < |Accepted(rows, tenant, records, header)|
    ensures !SharesContact(Accepted(rows, tenant, records, header)[l].guest, Accepted(rows, tenant, records, header)[k].guest)
  {
    hide Parsed, Candidates, NotInTable, WithoutRepeats, SharesContact;
    WithoutRepeatsIsDistinct(NotInTable(Candidates(Parsed(records, header), tenant), rows, tenant), k, l);
  }

  lemma ImportKeepsInv(s: State, tenant: nat, records: seq<Record>, header: Header)
    requires Inv(s)
    ensures Inv(ImportStep(s, tenant, records, header))
  {
    var accepted := Accepted(s.rows, tenant, records, header);
    var guests := GuestsOf(accepted);
    assert ImportStep(s, tenant, records, header) == State(InsertAll(s.rows, s.nextId, guests), s.nextId + |guests|);
    hide Accepted, InsertAll, ImportStep;
    forall k, i | 0 <= k < |guests| && i in s.rows ensures !Clashes(s.rows[i], guests[k]) {
      var g := guests[k];
      AcceptedIsNew(s.rows, tenant, records, header, accepted[k]);
      assert g.phone.Some? ==> !HasPhone(s.rows[i], tenant, g.phone.value);
      assert g.email.Some? ==> !HasEmail(s.rows[i], tenant, g.email.value);
    }
    forall k, l | 0 <= k < l < |guests| ensures !Clashes(guests[k], guests[l]) {
      AcceptedIsDistinct(s.rows, tenant, records, header, k, l);
    }
    InsertAllKeepsInv(s, guests);
  }

  /** One call of the guest service or of the import; an import whose duplicate query fails ends there. */
  datatype Action =
    | Create(tenant: nat, request: Request, lookups: Lookups)
    | Update(tenant: nat, id: nat, request: Request, lookups: Lookups)
    | Delete(tenant: nat, id: nat)
    | Import(tenant: nat, records: seq<Record>, header: Header, answered: bool)

  function Step(s: State, a: Action): State {
    match a
    case Create(tenant, request, l) => CreateStep(s, tenant, request, l)
    case Update(tenant, id, request, l) => UpdateStep(s, tenant, id, request, l)
    case Delete(tenant, id) => DeleteStep(s, tenant, id)
    case Import(tenant, records, header, answered) => if answered then ImportStep(s, tenant, records, header) else s
  }

  function Run(s: State, actions: seq<Action>): State
    decreases |actions|
  {
    if actions == [] then s else Run(Step(s, actions[0]), actions[1..])
  }

  /** The call writes a taken contact because it ignored a failed lookup. */
  predicate IsBlind(s: State, a: Action) {
    match a
    case Create(tenant, request, l) => CreatesBlindly(s, tenant, request, l)
    case Update(tenant, id, request, l) => UpdatesBlindly(s, tenant, id, request, l)
    case _ => false
  }

  /** A call keeps contacts distinct if and only if it is not blind. */
  lemma StepKeepsInv(s: State, a: Action)
    requires Inv(s)
    ensures Inv(Step(s, a)) <==> !IsBlind(s, a)
  {
    match a
    case Create(tenant, request, l) => CreateKeepsInv(s, tenant, request, l);
    case Update(tenant, id, request, l) => UpdateKeepsInv(s, tenant, id, request, l);
    case Delete(tenant, id) =>
    case Import(tenant, records, header, answered) => ImportKeepsInv(s, tenant, records, header);
  }

  ghost predicate NeverBlind(s: State, actions: seq<Action>)
    decreases |actions|
  {
    actions != [] ==> !IsBlind(s, actions[0]) && NeverBlind(Step(s, actions[0]), actions[1..])
  }

  ghost predicate DistinctAllAlong(s: State, actions: seq<Action>)
    decreases |actions|
  {
    Inv(s) && (actions != [] ==> DistinctAllAlong(Step(s, actions[0]), actions[1..]))
  }

  /** Contacts are distinct in every state of a run if and only if none of its calls is blind. */
  lemma {:induction false} DistinctUnlessBlind(s: State, actions: seq<Action>)
    requires Inv(s)
    ensures DistinctAllAlong(s, actions) <==> NeverBlind(s, actions)
    ensures NeverBlind(s, actions) ==> Inv(Run(s, actions))
    decreases |actions|
  {
    if actions != [] {
      hide Step, IsBlind, Inv;
      StepKeepsInv(s, actions[0]);
      if !IsBlind(s, actions[0]) {
        DistinctUnlessBlind(Step(s, actions[0]), actions[1..]);
      } else {
        NotDistinct(Step(s, actions[0]), actions[1..]);
      }
    }
  }

  lemma NotDistinct(s: State, actions: seq<Action>)
    requires !Inv(s)
    ensures !DistinctAllAlong(s, actions)
  {}

  /** In every run without a blind call, in particular when all lookups succeed, live guests of a tenant that share a contact are one. */
  lemma ContactsIdentifyGuests(actions: seq<Action>, i: nat, j: nat)
    requires NeverBlind(State(map[], 0), actions)
    requires var rows := Run(State(map[], 0), actions).rows;
             && i in rows && j in rows && !rows[i].deleted && !rows[j].deleted && rows[i].tenant == rows[j].tenant
             && ((rows[i].phone.Some? && rows[i].phone == rows[j].phone) || (rows[i].email.Some? && rows[i].email == rows[j].email))
    ensures i == j
  {
    DistinctUnlessBlind(State(map[], 0), actions);
    var rows := Run(State(map[], 0), actions).rows;
    assert i != j ==> !Clashes(rows[i], rows[j]);
  }

  predicate LookupsSucceed(a: Action) {
    match a
    case Create(_, _, l) => l == ANSWERED
    case Update(_, _, _, l) => l == ANSWERED
    case _ => true
  }

  lemma {:induction false} AnsweredIsNeverBlind(s: State, actions: seq<Action>)
    requires forall a :: a in actions ==> LookupsSucceed(a)
    ensures NeverBlind(s, actions)
    decreases |actions|
  {
    if actions != [] {
      assert LookupsSucceed(actions[0]);
      AnsweredIsNeverBlind(Step(s, actions[0]), actions[1..]);
    }
  }

  // --- Malformed lines ------------------------------------------------------------------------------------------

  /** A row's line is numbered from 2; a malformed line makes a row without a name. */
  ghost predicate ComesFrom(row: Row, records: seq<Record>, header: Header) {
    && 2 <= row.rowNum < |records| + 2
    && match records[row.rowNum - 2]
       case Malformed => row.fullName == ""
       case Cells(cells) => !IsBlank(cells) && row == ParseRow(cells, header, row.rowNum)
  }

  lemma {:induction false} ParsedRowOrigin(records: seq<Record>, header: Header, r: nat)
    requires r < |Parsed(records, header)|
    ensures ComesFrom(Parsed(records, header)[r], records, header)
  {
    var last := |records| - 1;
    var rest := Parsed(records[..last], header);
    assert Parsed(records, header) == rest + LineRows(records[last], header, last + 2);
    if r < |rest| {
      ParsedRowOrigin(records[..last], header, r);
      hide *;
      OriginInLongerFile(rest[r], records, last, header);
    } else {
      hide *;
      LineOrigin(records, header);
    }
  }

  lemma OriginInLongerFile(row: Row, records: seq<Record>, n: nat, header: Header)
    requires n <= |records| && ComesFrom(row, records[..n], header)
    ensures ComesFrom(row, records, header)
  {
    hide ParseRow, IsBlank;
  }

  lemma LineOrigin(records: seq<Record>, header: Header)
    requires records != []
    ensures var rows := LineRows(records[|records| - 1], header, |records| + 1);
            |rows| <= 1 && forall row :: row in rows ==> ComesFrom(row, records, header)
  {
    hide Text.Trim, PhoneNumbers.Normalize, NormalizeGuestType, Field, IsBlank;
  }

  lemma NamedRowIsParsed(row: Row, records: seq<Record>, header: Header)
    requires ComesFrom(row, records, header) && row.fullName != ""
    ensures 2 <= row.rowNum < |records| + 2 && records[row.rowNum - 2].Cells?
    ensures row == ParseRow(records[row.rowNum - 2].cells, header, row.rowNum)
  {
    hide ParseRow, IsBlank;
  }

  /** What an import inserts comes from a row without problems. */
  lemma AcceptedOrigin(rows: Table, tenant: nat, records: seq<Record>, header: Header, c: Candidate)
    requires c in Accepted(rows, tenant, records, header)
    ensures var parsed := Parsed(records, header);
            c.row < |parsed| && Problems(parsed[c.row]) == [] && parsed[c.row].fullName != ""
            && c.guest == ToGuest(parsed[c.row], tenant)
  {
    var parsed := Parsed(records, header);
    var candidates := Candidates(parsed, tenant);
    var remaining := NotInTable(candidates, rows, tenant);
    WithoutRepeatsMembers(remaining, c);
    NotInTableMembers(candidates, rows, tenant, c);
    hide Accepted, Parsed, Candidates, NotInTable, WithoutRepeats, InTable, Problems, SharesContact, ToGuest;
    var j :| 0 <= j < |candidates| && candidates[j] == c;
    CandidatesComeFromRows(parsed, tenant, j);
  }

  /** The line was read, and the guest is made of its cells. */
  predicate ImportsLine(c: Candidate, line: Record, number: nat, header: Header, tenant: nat) {
    line.Cells? && c.guest == ToGuest(ParseRow(line.cells, header, number + 2), tenant)
  }

  lemma LineOf(c: Candidate, row: Row, records: seq<Record>, header: Header, tenant: nat)
    requires 2 <= row.rowNum < |records| + 2 && records[row.rowNum - 2].Cells? && c.guest == ToGuest(row, tenant)
    requires row == ParseRow(records[row.rowNum - 2].cells, header, row.rowNum)
    ensures exists line :: 0 <= line < |records| && ImportsLine(c, records[line], line, header, tenant)
  {
    hide ParseRow, ToGuest;
    assert ImportsLine(c, records[row.rowNum - 2], row.rowNum - 2, header, tenant);
  }

  /** Every candidate, whether it is inserted, reused, reported or dropped, comes from a line that parsed. */
  lemma CandidatesComeFromParsedLines(records: seq<Record>, header: Header, tenant: nat, c: Candidate)
    requires c in Candidates(Parsed(records, header), tenant)
    ensures exists line :: 0 <= line < |records| && ImportsLine(c, records[line], line, header, tenant)
  {
    hide *;
    var parsed := Parsed(records, header);
    var k :| 0 <= k < |Candidates(parsed, tenant)| && Candidates(parsed, tenant)[k] == c;
    CandidatesComeFromRows(parsed, tenant, k);
    ParsedRowOrigin(records, header, c.row);
    NamedRowIsParsed(parsed[c.row], records, header);
    LineOf(c, parsed[c.row], records, header, tenant);
  }

  /** In particular no guest is inserted from a line that failed to parse, although validation overwrites its parse error. */
  lemma MalformedLineIsNeverImported(rows: Table, tenant: nat, records: seq<Record>, header: Header, c: Candidate)
    requires c in Accepted(rows, tenant, records, header)
    ensures exists line :: 0 <= line < |records| && ImportsLine(c, records[line], line, header, tenant)
  {
    var candidates := Candidates(Parsed(records, header), tenant);
    WithoutRepeatsMembers(NotInTable(candidates, rows, tenant), c);
    hide *;
    NotInTableMembers(candidates, rows, tenant, c);
    CandidatesComeFromParsedLines(records, header, tenant, c);
  }

  /** And no guest is reused for one: a reused guest owns a contact of such a line. */
  lemma {:induction false} ReusedComeFromCandidates(candidates: seq<Candidate>, rows: Table, tenant: nat, id: nat)
    requires id in Reused(candidates, rows, tenant)
    ensures exists c :: c in candidates && id in Owners(rows, tenant, c.guest)
  {
    hide Owners;
    var last := |candidates| - 1;
    var owners := Owners(rows, tenant, candidates[last].guest);
    if id in Reused(candidates[..last], rows, tenant) {
      ReusedComeFromCandidates(candidates[..last], rows, tenant, id);
      var c :| c in candidates[..last] && id in Owners(rows, tenant, c.guest);
      assert c in candidates;
    } else {
      assert candidates[last] in candidates && id in owners;
    }
  }

  lemma ReusedComeFromParsedLines(rows: Table, tenant: nat, records: seq<Record>, header: Header, id: nat)
    requires id in Reused(Candidates(Parsed(records, header), tenant), rows, tenant)
    ensures exists c, line :: 0 <= line < |records| && ImportsLine(c, records[line], line, header, tenant) && id in Owners(rows, tenant, c.guest)
  {
    hide *;
    var candidates := Candidates(Parsed(records, header), tenant);
    ReusedComeFromCandidates(candidates, rows, tenant, id);
    var c :| c in candidates && id in Owners(rows, tenant, c.guest);
    CandidatesComeFromParsedLines(records, header, tenant, c);
    var line :| 0 <= line < |records| && ImportsLine(c, records[line], line, header, tenant);
  }
}
