/**
 What an import makes of a line, said over the line's cells: which cell each column of the guest
 comes from, and which lines become candidates at all.
 */
module ImportedLines {
  import opened Common
  import opened Guests
  import opened GuestImport
  import PhoneNumbers
  import Slugs
  import Text

  predicate Reaches(cells: seq<string>, header: Header, key: string) {
    key in header && header[key] < |cells|
  }

  /** The trimmed cell of the first of three columns that the header has and the record reaches, or nothing. */
  predicate IsFirstOf(cells: seq<string>, header: Header, first: string, second: string, third: string, value: string) {
    if Reaches(cells, header, first) then value == Text.Trim(cells[header[first]])
    else if Reaches(cells, header, second) then value == Text.Trim(cells[header[second]])
    else if Reaches(cells, header, third) then value == Text.Trim(cells[header[third]])
    else value == ""
  }

  predicate IsNameCell(cells: seq<string>, header: Header, value: string) {
    IsFirstOf(cells, header, "full_name", "name", "fullname", value)
  }

  predicate IsPhoneCell(cells: seq<string>, header: Header, value: string) {
    IsFirstOf(cells, header, "phone", "phone_number", "mobile", value)
  }

  predicate IsEmailCell(cells: seq<string>, header: Header, value: string) {
    IsFirstOf(cells, header, "email", "email_address", "email_address", value)
  }

  predicate IsTypeCell(cells: seq<string>, header: Header, value: string) {
    IsFirstOf(cells, header, "guest_type", "type", "guesttype", value)
  }

  const SYNONYMS := map[
    "regular" := "general", "umum" := "general", "tamu" := "general", "keluarga" := "family", "teman" := "friend",
    "rekan" := "colleague", "rekan kerja" := "colleague"]

  /** Lower case, with the synonyms replaced. */
  predicate IsCanonicalType(raw: string, canonical: string) {
    var v := Slugs.Lower(Text.Trim(raw));
    canonical == if v in SYNONYMS then SYNONYMS[v] else v
  }

  /** The guest's columns are those of the line. */
  ghost predicate IsGuestOf(g: Guest, cells: seq<string>, header: Header, tenant: nat) {
    && g.tenant == tenant && !g.deleted
    && IsNameCell(cells, header, g.fullName)
    && (exists phone :: IsPhoneCell(cells, header, phone) && IsColumnOf(g.phone, PhoneNumbers.Normalize(phone)))
    && (exists email :: IsEmailCell(cells, header, email) && IsColumnOf(g.email, email))
    && (exists kind :: IsTypeCell(cells, header, kind) && IsCanonicalType(kind, g.guestType))
  }

  // --- Columns --------------------------------------------------------------------------------------

  lemma FieldStep(cells: seq<string>, header: Header, key: string, rest: seq<string>)
    ensures Field(cells, header, [key] + rest) ==
              if Reaches(cells, header, key) then Text.Trim(cells[header[key]]) else Field(cells, header, rest)
  {
    hide Text.Trim;
    assert ([key] + rest)[1..] == rest;
  }

  lemma FieldOfTwo(cells: seq<string>, header: Header, first: string, second: string)
    ensures IsFirstOf(cells, header, first, second, second, Field(cells, header, [first, second]))
  {
    hide Text.Trim;
    FieldStep(cells, header, first, [second]);
    FieldStep(cells, header, second, []);
    assert [second] + [] == [second] && [first] + [second] == [first, second];
    assert Field(cells, header, []) == "";
    hide Field;
  }

  lemma FieldOfThree(cells: seq<string>, header: Header, first: string, second: string, third: string)
    ensures IsFirstOf(cells, header, first, second, third, Field(cells, header, [first, second, third]))
  {
    hide Text.Trim;
    FieldStep(cells, header, first, [second, third]);
    FieldStep(cells, header, second, [third]);
    FieldStep(cells, header, third, []);
    assert [third] + [] == [third] && [second] + [third] == [second, third] && [first] + [second, third] == [first, second, third];
    assert Field(cells, header, []) == "";
    hide Field;
  }

  lemma CanonicalType(raw: string)
    ensures IsCanonicalType(raw, NormalizeGuestType(raw))
  {
    hide Text.Trim, Slugs.Lower;
  }

  /** Each column of a parsed row is the cell it should be. */
  lemma ParsedColumns(cells: seq<string>, header: Header, rowNum: nat)
    ensures var row := ParseRow(cells, header, rowNum);
            && row.rowNum == rowNum
            && IsNameCell(cells, header, row.fullName)
            && (exists phone :: IsPhoneCell(cells, header, phone) && row.phone == PhoneNumbers.Normalize(phone))
            && IsEmailCell(cells, header, row.email)
            && (exists kind :: IsTypeCell(cells, header, kind) && IsCanonicalType(kind, row.guestType))
  {
    FieldOfThree(cells, header, "full_name", "name", "fullname");
    FieldOfThree(cells, header, "phone", "phone_number", "mobile");
    FieldOfTwo(cells, header, "email", "email_address");
    FieldOfThree(cells, header, "guest_type", "type", "guesttype");
    CanonicalType(Field(cells, header, ["guest_type", "type", "guesttype"]));
    hide Field, IsFirstOf, IsCanonicalType, NormalizeGuestType, PhoneNumbers.Normalize;
    assert IsPhoneCell(cells, header, Field(cells, header, ["phone", "phone_number", "mobile"]));
    assert IsTypeCell(cells, header, Field(cells, header, ["guest_type", "type", "guesttype"]));
  }

  lemma GuestColumns(row: Row, cells: seq<string>, header: Header, tenant: nat)
    requires row == ParseRow(cells, header, row.rowNum)
    ensures IsGuestOf(ToGuest(row, tenant), cells, header, tenant)
  {
    ParsedColumns(cells, header, row.rowNum);
    hide ParseRow, IsNameCell, IsPhoneCell, IsEmailCell, IsTypeCell, IsCanonicalType, PhoneNumbers.Normalize;
    assert IsColumnOf(ToGuest(row, tenant).email, row.email) && IsColumnOf(ToGuest(row, tenant).phone, row.phone);
  }

  /** Every candidate, and so every guest an import inserts, has the columns of a line that parsed. */
  lemma CandidatesHaveTheLinesColumns(records: seq<Record>, header: Header, tenant: nat, c: Candidate)
    requires c in Candidates(Parsed(records, header), tenant)
    ensures exists line :: 0 <= line < |records| && records[line].Cells? && IsGuestOf(c.guest, records[line].cells, header, tenant)
  {
    CandidatesComeFromParsedLines(records, header, tenant, c);
    hide Candidates, Parsed, IsGuestOf, ParseRow, ToGuest;
    var line :| 0 <= line < |records| && ImportsLine(c, records[line], line, header, tenant);
    LineColumns(c, records[line], line, header, tenant);
  }

  lemma LineColumns(c: Candidate, line: Record, number: nat, header: Header, tenant: nat)
    requires ImportsLine(c, line, number, header, tenant)
    ensures line.Cells? && IsGuestOf(c.guest, line.cells, header, tenant)
  {
    hide IsGuestOf, ToGuest;
    ParsedColumns(line.cells, header, number + 2);
    hide ParseRow;
    GuestColumns(ParseRow(line.cells, header, number + 2), line.cells, header, tenant);
  }

  lemma InsertedGuestsHaveTheLinesColumns(rows: Table, records: seq<Record>, header: Header, tenant: nat, c: Candidate)
    requires c in Accepted(rows, tenant, records, header)
    ensures exists line :: 0 <= line < |records| && records[line].Cells? && IsGuestOf(c.guest, records[line].cells, header, tenant)
  {
    var candidates := Candidates(Parsed(records, header), tenant);
    WithoutRepeatsMembers(NotInTable(candidates, rows, tenant), c);
    hide *;
    NotInTableMembers(candidates, rows, tenant, c);
    CandidatesHaveTheLinesColumns(records, header, tenant, c);
  }

  // --- Which lines become candidates ------------------------------------------------------------------------

  /** The rules a row is held to, over the line's cells. */
  ghost predicate MeetsRules(cells: seq<string>, header: Header) {
    && (exists name :: IsNameCell(cells, header, name) && |name| >= 2 && ByteLength(name) <= 255)
    && (exists email :: IsEmailCell(cells, header, email) && (email == "" || IsValidEmail(email)))
    && (exists phone :: IsPhoneCell(cells, header, phone) && (PhoneNumbers.Normalize(phone) == "" || PhoneNumbers.Valid(PhoneNumbers.Normalize(phone))))
    && (exists kind, canonical :: IsTypeCell(cells, header, kind) && IsCanonicalType(kind, canonical) && (canonical == "" || IsKnownType(canonical)))
  }

  predicate IsKnownType(kind: string) {
    || kind == "vip" || kind == "vvip" || kind == "family" || kind == "friend" || kind == "colleague" || kind == "government"
    || kind == "media" || kind == "sponsor" || kind == "vendor" || kind == "speaker" || kind == "participant" || kind == "internal"
    || kind == "protocol" || kind == "security" || kind == "general"
  }

  lemma KnownTypes(kind: string)
    ensures kind in GUEST_TYPES <==> IsKnownType(kind)
  {}

  lemma CellsAreUnique(cells: seq<string>, header: Header, first: string, second: string, third: string, v: string, w: string)
    requires IsFirstOf(cells, header, first, second, third, v) && IsFirstOf(cells, header, first, second, third, w)
    ensures v == w
  {}

  lemma NoProblemsMeans(row: Row)
    ensures Problems(row) == [] <==>
              && |row.fullName| >= 2 && ByteLength(row.fullName) <= 255
              && (row.email == "" || IsValidEmail(row.email))
              && (row.phone == "" || PhoneNumbers.Valid(row.phone))
              && (row.guestType == "" || IsKnownType(row.guestType))
  {
    KnownTypes(row.guestType);
    hide ByteLength, IsValidEmail, PhoneNumbers.Valid, IsKnownType;
  }

  /** Which problem is reported when. */
  lemma ProblemsAreExact(row: Row)
    ensures NameRequired in Problems(row) <==> row.fullName == ""
    ensures NameTooShort in Problems(row) <==> |row.fullName| == 1
    ensures NameTooLong in Problems(row) <==> |row.fullName| >= 2 && ByteLength(row.fullName) > 255
    ensures BadEmail in Problems(row) <==> row.email != "" && !IsValidEmail(row.email)
    ensures BadPhone in Problems(row) <==> row.phone != "" && !PhoneNumbers.Valid(row.phone)
    ensures BadGuestType in Problems(row) <==> row.guestType != "" && !IsKnownType(row.guestType)
    ensures forall problem :: problem in Problems(row) ==> !problem.ParseFailure? && !problem.PhoneExists? && !problem.EmailExists?
  {
    KnownTypes(row.guestType);
    hide ByteLength, IsValidEmail, PhoneNumbers.Valid, IsKnownType;
  }

  /** A parsed row has no problems exactly when its cells meet the rules. */
  lemma RulesAreTheProblems(cells: seq<string>, header: Header, rowNum: nat)
    ensures Problems(ParseRow(cells, header, rowNum)) == [] <==> MeetsRules(cells, header)
  {
    var row := ParseRow(cells, header, rowNum);
    ParsedColumns(cells, header, rowNum);
    NoProblemsMeans(row);
    hide ParseRow, Problems, IsKnownType, IsFirstOf, IsCanonicalType, ByteLength, IsValidEmail, PhoneNumbers.Valid, PhoneNumbers.Normalize;
    var phone :| IsPhoneCell(cells, header, phone) && row.phone == PhoneNumbers.Normalize(phone);
    var kind :| IsTypeCell(cells, header, kind) && IsCanonicalType(kind, row.guestType);
    if MeetsRules(cells, header) {
      var name :| IsNameCell(cells, header, name) && |name| >= 2 && ByteLength(name) <= 255;
      var email :| IsEmailCell(cells, header, email) && (email == "" || IsValidEmail(email));
      var phone' :| IsPhoneCell(cells, header, phone') && (PhoneNumbers.Normalize(phone') == "" || PhoneNumbers.Valid(PhoneNumbers.Normalize(phone')));
      var kind', canonical :| IsTypeCell(cells, header, kind') && IsCanonicalType(kind', canonical) && (canonical == "" || IsKnownType(canonical));
      CellsAreUnique(cells, header, "full_name", "name", "fullname", name, row.fullName);
      CellsAreUnique(cells, header, "email", "email_address", "email_address", email, row.email);
      CellsAreUnique(cells, header, "phone", "phone_number", "mobile", phone, phone');
      CellsAreUnique(cells, header, "guest_type", "type", "guesttype", kind, kind');
      CanonicalIsUnique(kind, canonical, row.guestType);
    }
  }

  lemma CanonicalIsUnique(raw: string, a: string, b: string)
    requires IsCanonicalType(raw, a) && IsCanonicalType(raw, b)
    ensures a == b
  {}

  /** A line with a name is not blank. */
  lemma NamedLineIsNotBlank(cells: seq<string>, header: Header)
    requires MeetsRules(cells, header)
    ensures !IsBlank(cells)
  {
    hide ByteLength, IsValidEmail, PhoneNumbers.Valid, PhoneNumbers.Normalize, IsCanonicalType, IsKnownType, Text.Trim;
    var name :| IsNameCell(cells, header, name) && |name| >= 2 && ByteLength(name) <= 255;
  }

  /** The `k`th candidate is made of this line. */
  ghost predicate Yields(records: seq<Record>, header: Header, tenant: nat, line: nat, k: nat) {
    var parsed := Parsed(records, header);
    k < |Candidates(parsed, tenant)| && parsed[Candidates(parsed, tenant)[k].row].rowNum == line + 2
  }

  /** Rows are numbered by their lines, in order. */
  lemma {:induction false} RowsAreInOrder(records: seq<Record>, header: Header, q: nat, r: nat)
    requires q < r < |Parsed(records, header)|
    ensures Parsed(records, header)[q].rowNum < Parsed(records, header)[r].rowNum
  {
    var last := |records| - 1;
    var rest := Parsed(records[..last], header);
    assert Parsed(records, header) == rest + LineRows(records[last], header, last + 2);
    if r < |rest| {
      RowsAreInOrder(records[..last], header, q, r);
    } else {
      ParsedRowOrigin(records[..last], header, q);
      LineHasOneRow(records[last], header, last + 2);
    }
  }

  lemma LineHasOneRow(record: Record, header: Header, rowNum: nat)
    ensures var rows := LineRows(record, header, rowNum);
            |rows| <= 1 && forall row :: row in rows ==> row.rowNum == rowNum
    ensures record.Cells? && !IsBlank(record.cells) ==> LineRows(record, header, rowNum) == [ParseRow(record.cells, header, rowNum)]
  {
    hide Field, Text.Trim, PhoneNumbers.Normalize, NormalizeGuestType, IsBlank;
  }

  lemma ParsedStep(records: seq<Record>, header: Header)
    requires records != []
    ensures var last := |records| - 1;
            Parsed(records, header) == Parsed(records[..last], header) + LineRows(records[last], header, last + 2)
  {
    hide LineRows;
  }

  lemma {:induction false} LineIsParsed(records: seq<Record>, header: Header, line: nat) returns (r: nat)
    requires line < |records| && records[line].Cells? && !IsBlank(records[line].cells)
    ensures r < |Parsed(records, header)| && Parsed(records, header)[r] == ParseRow(records[line].cells, header, line + 2)
  {
    hide *;
    var last := |records| - 1;
    var rest := Parsed(records[..last], header);
    ParsedStep(records, header);
    if line < last {
      r := LineIsParsed(records[..last], header, line);
    } else {
      LineHasOneRow(records[last], header, last + 2);
      r := |rest|;
    }
  }

  predicate HasRowFor(rows: seq<Row>, line: nat) {
    exists r :: 0 <= r < |rows| && rows[r].rowNum == line + 2
  }

  predicate IsMalformedOrHasText(record: Record) {
    record.Malformed? || exists k :: 0 <= k < |record.cells| && Text.Trim(record.cells[k]) != ""
  }

  /** A line makes a row if and only if it is malformed or has a cell that is not blank. */
  lemma {:induction false} LineHasARow(records: seq<Record>, header: Header, line: nat)
    requires line < |records|
    ensures HasRowFor(Parsed(records, header), line) <==> IsMalformedOrHasText(records[line])
  {
    hide *;
    var last := |records| - 1;
    ParsedStep(records, header);
    EarlierRows(records[..last], header, last);
    RowOfLine(records[last], header, last, line);
    RowsAppended(Parsed(records[..last], header), LineRows(records[last], header, last + 2), line);
    if line < last {
      LineHasARow(records[..last], header, line);
    }
  }

  lemma RowsAppended(rows: seq<Row>, more: seq<Row>, line: nat)
    ensures HasRowFor(rows + more, line) <==> HasRowFor(rows, line) || HasRowFor(more, line)
  {
    var all := rows + more;
    if r :| 0 <= r < |rows| && rows[r].rowNum == line + 2 { assert all[r] == rows[r]; }
    if r :| 0 <= r < |more| && more[r].rowNum == line + 2 { assert all[|rows| + r] == more[r]; }
  }

  lemma EarlierRows(records: seq<Record>, header: Header, last: nat)
    requires last == |records|
    ensures !HasRowFor(Parsed(records, header), last)
  {
    hide Parsed, ParseRow, IsBlank;
    forall r | 0 <= r < |Parsed(records, header)| ensures Parsed(records, header)[r].rowNum != last + 2 {
      ParsedRowOrigin(records, header, r);
    }
  }

  lemma RowOfLine(record: Record, header: Header, number: nat, line: nat)
    ensures HasRowFor(LineRows(record, header, number + 2), line) <==> line == number && IsMalformedOrHasText(record)
  {
    hide *;
    LineHasOneRow(record, header, number + 2);
    BlankLines(record, header, number + 2);
    RowsOfOneLine(LineRows(record, header, number + 2), number, line);
  }

  lemma RowsOfOneLine(rows: seq<Row>, number: nat, line: nat)
    requires forall row :: row in rows ==> row.rowNum == number + 2
    ensures HasRowFor(rows, line) <==> line == number && rows != []
  {
    if rows != [] {
      assert rows[0] in rows;
    }
  }

  lemma BlankLines(record: Record, header: Header, rowNum: nat)
    ensures LineRows(record, header, rowNum) != [] <==> IsMalformedOrHasText(record)
  {
    hide ParseRow, Text.Trim;
  }

  lemma {:induction false} CandidatesAreInOrder(rows: seq<Row>, tenant: nat, k: nat, l: nat)
    requires k < l < |Candidates(rows, tenant)|
    ensures Candidates(rows, tenant)[k].row < Candidates(rows, tenant)[l].row
  {
    hide Problems, ToGuest;
    var last := |rows| - 1;
    if l < |Candidates(rows[..last], tenant)| {
      CandidatesAreInOrder(rows[..last], tenant, k, l);
    }
  }

  lemma {:induction false} SoundRowIsACandidate(rows: seq<Row>, tenant: nat, r: nat) returns (k: nat)
    requires r < |rows| && Problems(rows[r]) == []
    ensures k < |Candidates(rows, tenant)| && Candidates(rows, tenant)[k].row == r
  {
    hide Problems, ToGuest;
    var last := |rows| - 1;
    if r < last {
      k := SoundRowIsACandidate(rows[..last], tenant, r);
    } else {
      k := |Candidates(rows[..last], tenant)|;
    }
  }

  /** A line becomes a candidate if and only if it parsed and its cells meet the rules, and then exactly one. */
  lemma LineYieldsACandidate(records: seq<Record>, header: Header, tenant: nat, line: nat)
    requires line < |records|
    ensures (exists k :: Yields(records, header, tenant, line, k)) <==> records[line].Cells? && MeetsRules(records[line].cells, header)
    ensures forall k, l :: Yields(records, header, tenant, line, k) && Yields(records, header, tenant, line, l) ==> k == l
  {
    hide MeetsRules, Parsed, Candidates, Problems, ParseRow, ToGuest;
    var parsed := Parsed(records, header);
    if records[line].Cells? && MeetsRules(records[line].cells, header) {
      var k := RuledLineYields(records, header, tenant, line);
    }
    forall k | Yields(records, header, tenant, line, k) ensures records[line].Cells? && MeetsRules(records[line].cells, header) {
      YieldingLineIsRuled(records, header, tenant, line, k);
    }
    forall k, l | Yields(records, header, tenant, line, k) && Yields(records, header, tenant, line, l) ensures k == l {
      YieldsOnce(records, header, tenant, line, k, l);
      YieldsOnce(records, header, tenant, line, l, k);
    }
  }

  lemma RuledLineYields(records: seq<Record>, header: Header, tenant: nat, line: nat) returns (k: nat)
    requires line < |records| && records[line].Cells? && MeetsRules(records[line].cells, header)
    ensures Yields(records, header, tenant, line, k)
  {
    hide MeetsRules, Parsed, Candidates, Problems, ToGuest, IsBlank;
    var cells := records[line].cells;
    NamedLineIsNotBlank(cells, header);
    RulesAreTheProblems(cells, header, line + 2);
    ParsedColumns(cells, header, line + 2);
    hide ParseRow;
    var r := LineIsParsed(records, header, line);
    k := SoundRowIsACandidate(Parsed(records, header), tenant, r);
  }

  lemma YieldingLineIsRuled(records: seq<Record>, header: Header, tenant: nat, line: nat, k: nat)
    requires line < |records| && Yields(records, header, tenant, line, k)
    ensures records[line].Cells? && MeetsRules(records[line].cells, header)
  {
    hide MeetsRules, Parsed, Candidates, Problems, ToGuest, ParseRow;
    var parsed := Parsed(records, header);
    var r := Candidates(parsed, tenant)[k].row;
    CandidatesComeFromRows(parsed, tenant, k);
    ParsedRowOrigin(records, header, r);
    hide ComesFrom;
    NamedRowIsParsed(parsed[r], records, header);
    RulesAreTheProblems(records[line].cells, header, line + 2);
  }

  lemma YieldsOnce(records: seq<Record>, header: Header, tenant: nat, line: nat, k: nat, l: nat)
    requires Yields(records, header, tenant, line, k) && Yields(records, header, tenant, line, l)
    ensures !(k < l)
  {
    hide Parsed, Candidates;
    if k < l {
      var parsed := Parsed(records, header);
      CandidatesAreInOrder(parsed, tenant, k, l);
      RowsAreInOrder(records, header, Candidates(parsed, tenant)[k].row, Candidates(parsed, tenant)[l].row);
      assert false;
    }
  }

  // --- The rules in other words -----------------------------------------------------------------------------

  predicate IsAscii(s: string) {
    forall k :: 0 <= k < |s| ==> s[k] < '\U{80}'
  }

  lemma {:induction false} AsciiIsOneByteEach(s: string)
    requires IsAscii(s)
    ensures ByteLength(s) == |s|
  {
    if s != "" {
      AsciiIsOneByteEach(s[..|s| - 1]);
    }
  }

  predicate IsAlphanumeric(c: char) {
    'a' <= c <= 'z' || 'A' <= c <= 'Z' || '0' <= c <= '9'
  }

  predicate AllLocal(s: string) {
    forall k :: 0 <= k < |s| ==> IsAlphanumeric(s[k]) || s[k] == '.' || s[k] == '_' || s[k] == '%' || s[k] == '+' || s[k] == '-'
  }

  predicate AllDomain(s: string) {
    forall k :: 0 <= k < |s| ==> IsAlphanumeric(s[k]) || s[k] == '.' || s[k] == '-'
  }

  predicate AllLetters(s: string) {
    forall k :: 0 <= k < |s| ==> 'a' <= s[k] <= 'z' || 'A' <= s[k] <= 'Z'
  }

  /** The shape of an address, part by part. */
  ghost predicate IsAddress(email: string, local: string, domain: string, tld: string) {
    && email == local + ['@'] + domain + ['.'] + tld
    && local != "" && domain != "" && |tld| >= 2 && AllLocal(local) && AllDomain(domain) && AllLetters(tld)
  }

  lemma EmailHasItsParts(email: string)
    ensures IsValidEmail(email) <==> |email| <= 254 && exists local, domain, tld :: IsAddress(email, local, domain, tld)
  {
    if IsValidEmail(email) {
      ValidEmailSplits(email);
    }
    forall local, domain, tld | |email| <= 254 && IsAddress(email, local, domain, tld) ensures IsValidEmail(email) {
      PartsAreValid(email, local, domain, tld);
    }
  }

  lemma ValidEmailSplits(email: string)
    requires IsValidEmail(email)
    ensures exists local, domain, tld :: IsAddress(email, local, domain, tld)
  {
    hide IsLocalChar, IsDomainChar, IsLetter;
    var at, dot :| 0 < at < |email| && at + 1 < dot < |email| - 2 && email[at] == '@' && email[dot] == '.'
      && (forall k :: 0 <= k < at ==> IsLocalChar(email[k]))
      && (forall k :: at < k < dot ==> IsDomainChar(email[k]))
      && (forall k :: dot < k < |email| ==> IsLetter(email[k]));
    SplitAt(email, at, dot);
    PartsOf(email, at, dot);
    hide *;
    AddressOf(email, at, dot);
  }

  lemma AddressOf(email: string, at: nat, dot: nat)
    requires 0 < at && at + 1 < dot < |email| - 2
    requires email == email[..at] + ['@'] + email[at + 1..dot] + ['.'] + email[dot + 1..]
    requires AllLocal(email[..at]) && AllDomain(email[at + 1..dot]) && AllLetters(email[dot + 1..])
    ensures exists local, domain, tld :: IsAddress(email, local, domain, tld)
  {
    hide AllLocal, AllDomain, AllLetters;
    assert IsAddress(email, email[..at], email[at + 1..dot], email[dot + 1..]);
  }

  lemma SplitAt(s: string, at: nat, dot: nat)
    requires at < dot < |s| && s[at] == '@' && s[dot] == '.'
    ensures s == s[..at] + ['@'] + s[at + 1..dot] + ['.'] + s[dot + 1..]
  {
    assert s == s[..dot] + [s[dot]] + s[dot + 1..];
    assert s[..dot] == s[..at] + [s[at]] + s[at + 1..dot];
  }

  lemma PartsOf(s: string, at: nat, dot: nat)
    requires at < dot < |s|
    requires forall k :: 0 <= k < at ==> IsLocalChar(s[k])
    requires forall k :: at < k < dot ==> IsDomainChar(s[k])
    requires forall k :: dot < k < |s| ==> IsLetter(s[k])
    ensures AllLocal(s[..at]) && AllDomain(s[at + 1..dot]) && AllLetters(s[dot + 1..])
  {
    var domain, tld := s[at + 1..dot], s[dot + 1..];
    assert forall k :: 0 <= k < |domain| ==> IsDomainChar(domain[k]);
    assert forall k :: 0 <= k < |tld| ==> IsLetter(tld[k]);
  }

  lemma PartsAreValid(email: string, local: string, domain: string, tld: string)
    requires |email| <= 254 && IsAddress(email, local, domain, tld)
    ensures IsValidEmail(email)
  {
    var at := |local|;
    var dot := at + 1 + |domain|;
    CharsOfParts(local, domain, tld);
    assert forall k :: 0 <= k < |local| ==> IsLocalChar(local[k]);
    assert forall k :: 0 <= k < |domain| ==> IsDomainChar(domain[k]);
    assert forall k :: 0 <= k < |tld| ==> IsLetter(tld[k]);
    hide IsLocalChar, IsDomainChar, IsLetter, AllLocal, AllDomain, AllLetters;
    assert email[at] == '@' && email[dot] == '.';
  }

  lemma CharsOfParts(a: string, b: string, c: string)
    ensures var s := a + ['@'] + b + ['.'] + c;
            var at := |a|;
            var dot := at + 1 + |b|;
            && |s| == dot + 1 + |c| && s[at] == '@' && s[dot] == '.'
            && (forall k :: 0 <= k < at ==> s[k] == a[k])
            && (forall k :: at < k < dot ==> s[k] == b[k - at - 1])
            && (forall k :: dot < k < |s| ==> s[k] == c[k - dot - 1])
  {}
}
