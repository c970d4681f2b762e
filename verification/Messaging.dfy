/**
 Sending a template to a list of guests, and retrying a failed message.

 A WhatsApp batch is validated as a whole before anything is written or sent. Each guest then
 gets a queued row, one provider call, and one status write. What the provider answers and
 which writes succeed at the i-th guest is an input, `Job.attempts`.
 */
module Messaging {
  import opened Common
  import Delivery
  import PhoneNumbers
  import Template
  import Text

  datatype Channel = WhatsApp | Email | Sms

  /** A guest as far as messages need it; `vars` are the guest's render variables. */
  datatype Contact = Contact(phone: Option<string>, email: Option<string>, vars: Template.Variables)

  datatype Row = Row(event: nat, guest: nat, channel: Channel, body: string, mail: Delivery.Message)

  datatype Call = Call(channel: Channel, recipient: string, body: string)

  datatype Reply = Accepted(externalId: string, at: int) | Rejected(at: int)

  datatype Attempt = Attempt(created: bool, reply: Reply, recorded: bool)

  datatype Job = Job(
    event: nat,
    channel: Channel,
    body: string,
    overrides: Template.Variables,
    roster: set<nat>,
    contacts: map<nat, Contact>,
    now: int,
    attempts: nat -> Attempt)

  datatype SendError = TemplateInactive | NotConfigured | NotOnRoster | GuestNotFound | BadPhone | NotStored | MessageNotFound | NotRetryable

  // --- WhatsApp numbers ----------------------------------------------------------------------------

  /** The number a WhatsApp message goes to: 62 and the subscriber digits, 10 to 15 digits in all. */
  function WhatsAppNumber(raw: string): Option<string> {
    if Text.Trim(raw) == "" then None
    else
      var number := CountryForm(PhoneNumbers.Digits(Text.Trim(raw)));
      if IsWhatsAppNumber(number) then Some(number) else None
  }

  /** Which numbers can be sent to: 10 to 15 digits that start with 62, spelt so or with a leading zero for the 62. */
  lemma WhatsAppNumberIsExact(raw: string, number: string)
    ensures WhatsAppNumber(raw) == Some(number) <==>
              && 10 <= |number| <= 15 && number[0] == '6' && number[1] == '2'
              && (PhoneNumbers.Digits(raw) == number || PhoneNumbers.Digits(raw) == ['0'] + number[2..])
  {
    hide PhoneNumbers.Digits, Text.Trim, CountryForm, IsWhatsAppNumber;
    PhoneNumbers.DigitsOfTrim(raw);
    NothingHasNoDigits();
    CountryFormIsExact(PhoneNumbers.Digits(raw), number);
  }

  lemma NothingHasNoDigits()
    ensures PhoneNumbers.Digits("") == "" && CountryForm("") == "" && !IsWhatsAppNumber("")
  {}

  lemma CountryFormIsExact(digits: string, number: string)
    ensures CountryForm(digits) == number && IsWhatsAppNumber(number) <==>
              && 10 <= |number| <= 15 && number[0] == '6' && number[1] == '2'
              && (digits == number || digits == ['0'] + number[2..])
  {
    if |number| >= 2 {
      assert "62" <= number <==> number[0] == '6' && number[1] == '2';
      assert ("62" + number[2..])[2..] == number[2..];
      assert number[0] == '6' && number[1] == '2' ==> number == "62" + number[2..];
    }
    if digits != "" && digits[0] == '0' {
      assert digits == ['0'] + digits[1..];
      assert ("62" + digits[1..])[2..] == digits[1..];
    }
  }

  function CountryForm(digits: string): string {
    if "0" <= digits then "62" + digits[1..] else digits
  }

  predicate IsWhatsAppNumber(number: string) {
    10 <= |number| <= 15 && "62" <= number
  }

  /** A number already in that form is sent to as it is. */
  lemma WhatsAppNumberIsIdempotent(raw: string)
    requires WhatsAppNumber(raw).Some?
    ensures WhatsAppNumber(WhatsAppNumber(raw).value) == WhatsAppNumber(raw)
  {
    hide PhoneNumbers.Digits, Text.Trim, CountryForm;
    var digits := PhoneNumbers.Digits(Text.Trim(raw));
    CountryFormIsDigits(digits);
    CountryNumberIsFixed(CountryForm(digits));
  }

  lemma CountryFormIsDigits(digits: string)
    requires PhoneNumbers.AllDigits(digits)
    ensures PhoneNumbers.AllDigits(CountryForm(digits))
  {}

  lemma StaysAsItIs(number: string)
    requires IsWhatsAppNumber(number)
    ensures CountryForm(number) == number
  {
    assert number[0] == '6';
  }

  lemma DigitsNeedNoTrim(sign: string, digits: string)
    requires (sign == "" || sign == "+") && digits != "" && PhoneNumbers.AllDigits(digits)
    ensures Text.Trim(sign + digits) == sign + digits
  {
    var s := sign + digits;
    assert s[0] == '+' || PhoneNumbers.IsDigit(s[0]);
    assert s[|s| - 1] == digits[|digits| - 1];
    hide Text.Trim;
    Text.TrimOfTrimmed(s);
  }

  lemma CountryNumberIsFixed(number: string)
    requires PhoneNumbers.AllDigits(number) && IsWhatsAppNumber(number)
    ensures WhatsAppNumber(number) == Some(number)
  {
    hide PhoneNumbers.Digits, Text.Trim;
    PhoneNumbers.DigitsOfDigits(number);
    assert "" + number == number;
    DigitsNeedNoTrim("", number);
    StaysAsItIs(number);
  }

  /** Such a number as the import stores it, after a plus sign, is sent to without further ado. */
  lemma ImportedNumbersAreSendable(number: string)
    requires PhoneNumbers.AllDigits(number) && IsWhatsAppNumber(number)
    ensures WhatsAppNumber("+" + number) == Some(number)
  {
    hide PhoneNumbers.Digits, Text.Trim;
    PhoneNumbers.PlusDigitsHasDigits(number);
    DigitsNeedNoTrim("+", number);
    StaysAsItIs(number);
  }

  function OrEmpty(value: Option<string>): string {
    if value.Some? then value.value else ""
  }

  // --- One guest --------------------------------------------------------------------------------------

  function BodyFor(job: Job, guest: nat): string {
    if guest in job.contacts then Template.Render(job.body, job.contacts[guest].vars + job.overrides) else ""
  }

  function Recipient(job: Job, guest: nat): string {
    if guest !in job.contacts then ""
    else if job.channel == Email then Text.Trim(OrEmpty(job.contacts[guest].email))
    else OrEmpty(job.contacts[guest].phone)
  }

  function CallFor(job: Job, guest: nat): Call {
    Call(job.channel, Recipient(job, guest), BodyFor(job, guest))
  }

  function QueuedRow(job: Job, guest: nat): Row {
    Row(job.event, guest, job.channel, BodyFor(job, guest), Delivery.NewMessage(job.now))
  }

  /** The row once the provider's reply is stored; only WhatsApp replies carry a provider id. */
  function AfterReply(row: Row, reply: Reply): Row {
    row.(mail := match reply
                 case Accepted(id, at) => Delivery.AsSent(row.mail, at, if row.channel == WhatsApp then id else "")
                 case Rejected(at) => Delivery.AsFailed(row.mail, at))
  }

  function FinishedRow(job: Job, guest: nat, attempt: Attempt): Row {
    if job.channel == Sms then QueuedRow(job, guest) else AfterReply(QueuedRow(job, guest), attempt.reply)
  }

  /** The template rendered with the overrides, and for any other name with the guest's variables. */
  ghost predicate IsRenderedFor(job: Job, guest: nat, body: string)
    requires guest in job.contacts
  {
    exists vars: Template.Variables ::
      && body == Template.Render(job.body, vars)
      && (forall name :: name in job.overrides ==> name in vars && vars[name] == job.overrides[name])
      && (forall name :: name !in job.overrides ==> (name in vars <==> name in job.contacts[guest].vars))
      && (forall name :: name !in job.overrides && name in vars ==> vars[name] == job.contacts[guest].vars[name])
  }

  lemma BodyIsRenderedFor(job: Job, guest: nat)
    requires guest in job.contacts
    ensures IsRenderedFor(job, guest, BodyFor(job, guest))
  {
    hide Template.Render;
    var vars := job.contacts[guest].vars + job.overrides;
    assert BodyFor(job, guest) == Template.Render(job.body, vars);
  }

  /** On WhatsApp the guest's phone column, by email the trimmed email column, nothing where the column is empty. */
  predicate IsAddressOf(contact: Contact, channel: Channel, recipient: string) {
    && (channel == WhatsApp && contact.phone.Some? ==> recipient == contact.phone.value)
    && (channel == WhatsApp && contact.phone.None? ==> recipient == "")
    && (channel == Email && contact.email.Some? ==> recipient == Text.Trim(contact.email.value))
    && (channel == Email && contact.email.None? ==> recipient == "")
  }

  lemma RecipientIsTheirs(job: Job, guest: nat)
    requires guest in job.contacts
    ensures IsAddressOf(job.contacts[guest], job.channel, Recipient(job, guest))
  {
    Text.TrimOfTrimmed("");
    hide Text.Trim;
  }

  /** The end of a row is the provider's answer. */
  lemma FinishedRowSaysWhatHappened(job: Job, guest: nat, attempt: Attempt)
    requires job.channel != Sms
    ensures var row := FinishedRow(job, guest, attempt);
            && row.event == job.event && row.guest == guest && row.channel == job.channel && row.mail.createdAt == job.now
            && (guest in job.contacts ==> IsRenderedFor(job, guest, row.body))
            && Delivery.WellFormed(row.mail)
            && (attempt.reply.Accepted? ==>
                  && row.mail.status == Delivery.Sent && row.mail.sentAt == Some(attempt.reply.at)
                  && row.mail.externalId == if job.channel == WhatsApp && attempt.reply.externalId != "" then Some(attempt.reply.externalId) else None)
            && (attempt.reply.Rejected? ==> row.mail.status == Delivery.Failed && row.mail.failedAt == Some(attempt.reply.at))
  {
    if guest in job.contacts {
      BodyIsRenderedFor(job, guest);
    }
    hide BodyFor, IsRenderedFor;
  }

  // --- The batch ----------------------------------------------------------------------------------------

  predicate Known(job: Job, guest: nat) {
    guest in job.roster && guest in job.contacts
  }

  /** What the WhatsApp validation asks of a guest. */
  predicate Sendable(job: Job, guest: nat) {
    Known(job, guest) && WhatsAppNumber(OrEmpty(job.contacts[guest].phone)).Some?
  }

  predicate AllSendable(job: Job, ids: seq<nat>) {
    forall k :: 0 <= k < |ids| ==> Sendable(job, ids[k])
  }

  /** The batch is refused before anything is written or sent. */
  predicate Refused(job: Job, ids: seq<nat>, active: bool, prepared: bool) {
    !active || (job.channel == WhatsApp && (!prepared || !AllSendable(job, ids)))
  }

  predicate Stored(job: Job, ids: seq<nat>, k: nat)
    requires k < |ids|
  {
    Known(job, ids[k]) && job.attempts(k).created
  }

  /** The k-th guest is handled to the end. */
  predicate Completes(job: Job, ids: seq<nat>, k: nat)
    requires k < |ids|
  {
    Stored(job, ids, k) && (job.channel == Sms || job.attempts(k).recorded)
  }

  /** How many guests are handled before the first one that ends the call. */
  function Progress(job: Job, ids: seq<nat>, from: nat): (n: nat)
    requires from <= |ids|
    ensures from <= n <= |ids|
    ensures forall k :: from <= k < n ==> Completes(job, ids, k)
    ensures n < |ids| ==> !Completes(job, ids, n)
    decreases |ids| - from
  {
    if from < |ids| && Completes(job, ids, from) then Progress(job, ids, from + 1) else from
  }

  function FinishedRows(job: Job, ids: seq<nat>, n: nat): (rows: seq<Row>)
    requires n <= |ids|
    ensures |rows| == n && forall k :: 0 <= k < n ==> rows[k] == FinishedRow(job, ids[k], job.attempts(k))
  {
    seq(n, k requires 0 <= k < n => FinishedRow(job, ids[k], job.attempts(k)))
  }

  function CallsOf(job: Job, ids: seq<nat>, n: nat): (calls: seq<Call>)
    requires n <= |ids|
    ensures |calls| == if job.channel == Sms then 0 else n
    ensures forall k :: 0 <= k < |calls| ==> calls[k] == CallFor(job, ids[k])
  {
    if job.channel == Sms then [] else seq(n, k requires 0 <= k < n => CallFor(job, ids[k]))
  }

  /** The rows a batch adds: finished ones, and a queued one if its outcome could not be stored. */
  function RowsAdded(job: Job, ids: seq<nat>): seq<Row> {
    var n := Progress(job, ids, 0);
    FinishedRows(job, ids, n) + if n < |ids| && Stored(job, ids, n) then [QueuedRow(job, ids[n])] else []
  }

  function CallsAdded(job: Job, ids: seq<nat>): seq<Call> {
    var n := Progress(job, ids, 0);
    CallsOf(job, ids, if n < |ids| && Stored(job, ids, n) then n + 1 else n)
  }

  lemma {:induction false} ProgressFrom(job: Job, ids: seq<nat>, n: nat)
    requires n <= |ids| && forall k :: 0 <= k < n ==> Completes(job, ids, k)
    ensures Progress(job, ids, 0) == Progress(job, ids, n)
  {
    if n > 0 {
      ProgressFrom(job, ids, n - 1);
    }
  }

  /** The call ends at the first guest that does not complete, or after the last one. */
  lemma StopsAt(job: Job, ids: seq<nat>, n: nat)
    requires n <= |ids| && forall k :: 0 <= k < n ==> Completes(job, ids, k)
    requires n < |ids| ==> !Completes(job, ids, n)
    ensures Progress(job, ids, 0) == n
    ensures RowsAdded(job, ids) == FinishedRows(job, ids, n) + if n < |ids| && Stored(job, ids, n) then [QueuedRow(job, ids[n])] else []
    ensures CallsAdded(job, ids) ==
              CallsOf(job, ids, n) + if n < |ids| && job.channel != Sms && Stored(job, ids, n) then [CallFor(job, ids[n])] else []
  {
    ProgressFrom(job, ids, n);
    hide FinishedRow, QueuedRow, CallFor, Stored, Completes;
    if n < |ids| {
      OneMore(job, ids, n);
    }
  }

  lemma OneMore(job: Job, ids: seq<nat>, n: nat)
    requires n < |ids|
    ensures FinishedRows(job, ids, n + 1) == FinishedRows(job, ids, n) + [FinishedRow(job, ids[n], job.attempts(n))]
    ensures CallsOf(job, ids, n + 1) == CallsOf(job, ids, n) + if job.channel == Sms then [] else [CallFor(job, ids[n])]
  {
    hide FinishedRow, CallFor;
  }

  class MessageService {
    var rows: seq<Row>
    var calls: seq<Call>

    /** Calls the provider and stores its answer; only a failure to store is an error. */
    method Dispatch(k: nat, call: Call, attempt: Attempt) returns (ok: bool)
      requires k < |rows|
      modifies this
      ensures calls == old(calls) + [call]
      ensures ok == attempt.recorded
      ensures rows == if ok then old(rows)[k := AfterReply(old(rows)[k], attempt.reply)] else old(rows)
    {
      calls := calls + [call];
      ok := attempt.recorded;
      if ok {
        match attempt.reply {
          case Rejected(at) =>
            rows := rows[k := rows[k].(mail := Delivery.AsFailed(rows[k].mail, at))];
          case Accepted(id, at) =>
            var externalId := if rows[k].channel == WhatsApp then id else "";
            rows := rows[k := rows[k].(mail := Delivery.AsSent(rows[k].mail, at, externalId))];
        }
      }
    }

    method ValidateBatch(job: Job, ids: seq<nat>) returns (problem: Option<SendError>)
      ensures problem.None? <==> AllSendable(job, ids)
    {
      hide WhatsAppNumber;
      for k := 0 to |ids|
        invariant forall i :: 0 <= i < k ==> Sendable(job, ids[i])
      {
        if ids[k] !in job.roster {
          assert !Sendable(job, ids[k]);
          return Some(NotOnRoster);
        }
        if ids[k] !in job.contacts {
          assert !Sendable(job, ids[k]);
          return Some(GuestNotFound);
        }
        if WhatsAppNumber(OrEmpty(job.contacts[ids[k]].phone)).None? {
          assert !Sendable(job, ids[k]);
          return Some(BadPhone);
        }
      }
      return None;
    }

    /** Handles one guest; a row is left behind exactly when it was created. */
    method SendOne(job: Job, guest: nat, attempt: Attempt) returns (sent: Outcome<Row, SendError>)
      modifies this
      ensures sent.Ok? <==> Known(job, guest) && attempt.created && (job.channel == Sms || attempt.recorded)
      ensures sent.Ok? ==> sent.value == FinishedRow(job, guest, attempt)
      ensures rows == old(rows) + if sent.Ok? then [sent.value]
                                  else if Known(job, guest) && attempt.created then [QueuedRow(job, guest)] else []
      ensures calls == old(calls) + if job.channel != Sms && Known(job, guest) && attempt.created then [CallFor(job, guest)] else []
    {
      hide BodyFor, Recipient;
      if guest !in job.roster {
        return Err(NotOnRoster);
      }
      if guest !in job.contacts {
        return Err(GuestNotFound);
      }
      if !attempt.created {
        return Err(NotStored);
      }
      var k := |rows|;
      rows := rows + [QueuedRow(job, guest)];
      if job.channel == WhatsApp || job.channel == Email {
        var ok := Dispatch(k, CallFor(job, guest), attempt);
        if !ok {
          return Err(NotStored);
        }
      }
      return Ok(rows[k]);
    }

    method SendMessage(job: Job, ids: seq<nat>, active: bool, prepared: bool) returns (sent: Outcome<seq<Row>, SendError>)
      modifies this
      ensures Refused(job, ids, active, prepared) ==> sent.Err? && rows == old(rows) && calls == old(calls)
      ensures !Refused(job, ids, active, prepared) ==>
                && rows == old(rows) + RowsAdded(job, ids)
                && calls == old(calls) + CallsAdded(job, ids)
                && (sent.Ok? <==> Progress(job, ids, 0) == |ids|)
                && (sent.Ok? ==> sent.value == RowsAdded(job, ids))
    {
      hide AllSendable, Known, FinishedRow, CallFor, QueuedRow, FinishedRows, CallsOf, Progress, RowsAdded, CallsAdded;
      if !active {
        return Err(TemplateInactive);
      }
      if job.channel == WhatsApp {
        if !prepared {
          return Err(NotConfigured);
        }
        var problem := ValidateBatch(job, ids);
        if problem.Some? {
          return Err(problem.value);
        }
      }
      var messages: seq<Row> := [];
      for n := 0 to |ids|
        invariant forall k :: 0 <= k < n ==> Completes(job, ids, k)
        invariant messages == FinishedRows(job, ids, n)
        invariant rows == old(rows) + FinishedRows(job, ids, n)
        invariant calls == old(calls) + CallsOf(job, ids, n)
      {
        OneMore(job, ids, n);
        var one := SendOne(job, ids[n], job.attempts(n));
        if one.Err? {
          StopsAt(job, ids, n);
          return Err(one.error);
        }
        messages := messages + [one.value];
      }
      StopsAt(job, ids, |ids|);
      return Ok(messages);
    }

    /** A retry is a new row on the original's channel; the failed one stays as it is. */
    method RetryMessage(k: nat, job: Job, prepared: bool) returns (sent: Outcome<Row, SendError>)
      modifies this
      ensures |old(rows)| <= |rows| && rows[..|old(rows)|] == old(rows)
      ensures sent.Ok? <==> Retryable(job, old(rows), k, prepared) && job.attempts(0).created && job.attempts(0).recorded && old(rows)[k].channel != Sms
      ensures !Retryable(job, old(rows), k, prepared) ==> rows == old(rows) && calls == old(calls)
      ensures sent.Ok? ==>
                && k < |old(rows)| && rows == old(rows) + [sent.value]
                && sent.value.body == old(rows)[k].body && sent.value.guest == old(rows)[k].guest
                && sent.value.mail.status == (if job.attempts(0).reply.Accepted? then Delivery.Sent else Delivery.Failed)
                && calls == old(calls) + [RetryCall(job, old(rows)[k])]
    {
      hide Recipient;
      if k >= |rows| || rows[k].event != job.event {
        return Err(MessageNotFound);
      }
      var original := rows[k];
      if original.mail.status != Delivery.Failed {
        return Err(NotRetryable);
      }
      if original.guest !in job.roster {
        return Err(NotOnRoster);
      }
      if original.guest !in job.contacts {
        return Err(GuestNotFound);
      }
      if original.channel == WhatsApp && !prepared {
        return Err(NotConfigured);
      }
      var attempt := job.attempts(0);
      if !attempt.created {
        return Err(NotStored);
      }
      var last := |rows|;
      rows := rows + [original.(mail := Delivery.NewMessage(job.now))];
      if original.channel == Sms {
        return Err(NotRetryable);
      }
      var ok := Dispatch(last, RetryCall(job, original), attempt);
      return if ok then Ok(rows[last]) else Err(NotStored);
    }
  }

  /** A failed message of the event, whose guest is still there, on a channel that can be used. */
  predicate Retryable(job: Job, rows: seq<Row>, k: nat, prepared: bool) {
    && k < |rows| && rows[k].event == job.event && rows[k].mail.status == Delivery.Failed && Known(job, rows[k].guest)
    && (rows[k].channel == WhatsApp ==> prepared)
  }

  /** A retry goes to the guest's present contact on the original's channel, with the original's body. */
  function RetryCall(job: Job, original: Row): Call {
    Call(original.channel, Recipient(job.(channel := original.channel), original.guest), original.body)
  }

  // --- What a batch promises ---------------------------------------------------------------------------------

  /** With no storage failure, an accepted WhatsApp batch adds one finished row per listed guest, in order, and calls the provider once for each. */
  lemma AcceptedBatchIsComplete(job: Job, ids: seq<nat>)
    requires job.channel == WhatsApp && AllSendable(job, ids)
    requires forall k :: 0 <= k < |ids| ==> job.attempts(k).created && job.attempts(k).recorded
    ensures var rows := RowsAdded(job, ids);
            && |rows| == |ids| == |CallsAdded(job, ids)|
            && forall k :: 0 <= k < |ids| ==>
                 && rows[k].guest == ids[k]
                 && rows[k].mail.status == (if job.attempts(k).reply.Accepted? then Delivery.Sent else Delivery.Failed)
                 && CallsAdded(job, ids)[k] == CallFor(job, ids[k])
  {
    hide CallFor, BodyFor, WhatsAppNumber;
    forall k | 0 <= k < |ids| ensures Completes(job, ids, k) {
      assert Sendable(job, ids[k]);
    }
    ProgressFrom(job, ids, |ids|);
  }

  lemma CallsAreForKnownGuests(job: Job, ids: seq<nat>, k: nat)
    requires k < |CallsAdded(job, ids)|
    ensures k < |ids| && Known(job, ids[k]) && CallsAdded(job, ids)[k] == CallFor(job, ids[k])
  {
    hide Known, CallFor;
    var n := Progress(job, ids, 0);
    if k < n {
      assert Completes(job, ids, k);
    }
  }

  /** Every call of a batch, whatever fails, goes out on its channel, to that guest's address, with the guest's rendering. */
  lemma CallsGoToTheGuests(job: Job, ids: seq<nat>, k: nat)
    requires k < |CallsAdded(job, ids)|
    ensures var call := CallsAdded(job, ids)[k];
            && k < |ids| && ids[k] in job.contacts
            && call.channel == job.channel
            && IsAddressOf(job.contacts[ids[k]], job.channel, call.recipient)
            && IsRenderedFor(job, ids[k], call.body)
  {
    CallsAreForKnownGuests(job, ids, k);
    RecipientIsTheirs(job, ids[k]);
    BodyIsRenderedFor(job, ids[k]);
    hide CallsAdded, IsAddressOf, IsRenderedFor, Recipient, BodyFor;
  }

  /** In a WhatsApp batch that passed validation every call goes to a phone that has a WhatsApp number. */
  lemma ValidatedCallsAreSendable(job: Job, ids: seq<nat>, k: nat)
    requires job.channel == WhatsApp && AllSendable(job, ids) && k < |CallsAdded(job, ids)|
    ensures WhatsAppNumber(CallsAdded(job, ids)[k].recipient).Some?
  {
    CallsGoToTheGuests(job, ids, k);
    hide CallsAdded, WhatsAppNumber, IsRenderedFor;
    assert Sendable(job, ids[k]);
  }

  /** A retry goes out on the original's channel, to the guest's present address, with the original's body. */
  lemma RetryGoesToTheGuest(job: Job, original: Row)
    requires original.guest in job.contacts
    ensures var call := RetryCall(job, original);
            && call.channel == original.channel && call.body == original.body
            && IsAddressOf(job.contacts[original.guest], original.channel, call.recipient)
  {
    RecipientIsTheirs(job.(channel := original.channel), original.guest);
    hide Recipient, IsAddressOf;
  }

  /** Whatever fails, every provider call belongs to a row of the same guest, so nothing is sent unrecorded. */
  lemma EveryCallHasARow(job: Job, ids: seq<nat>, k: nat)
    requires k < |CallsAdded(job, ids)|
    ensures k < |RowsAdded(job, ids)| && k < |ids| && RowsAdded(job, ids)[k].guest == ids[k]
    ensures CallsAdded(job, ids)[k] == Call(job.channel, Recipient(job, ids[k]), RowsAdded(job, ids)[k].body)
  {
    hide Recipient, BodyFor, Stored, Progress;
    var n := Progress(job, ids, 0);
    if k < n {
      assert RowsAdded(job, ids)[k] == FinishedRow(job, ids[k], job.attempts(k));
    } else {
      assert RowsAdded(job, ids)[k] == QueuedRow(job, ids[k]);
    }
  }
}
