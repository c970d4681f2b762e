/**
 The life of an outgoing message: created as queued, written once by its dispatcher when the
 provider answers, then moved by provider acknowledgements that find it by its provider id.

 Dispatchers and acknowledgements interleave; nothing orders them except that the provider id
 is stored by the same write that records the message as sent. An acknowledgement reads the row
 in one statement and writes all its columns in another, without a lock or a guard.
 */
module Delivery {
  import opened Common
  import Text

  datatype Status = Queued | Sent | Delivered | Read | Failed | Cancelled

  datatype Message = Message(
    createdAt: int,
    status: Status,
    sentAt: Option<int>,
    deliveredAt: Option<int>,
    readAt: Option<int>,
    failedAt: Option<int>,
    externalId: Option<string>)

  type Table = seq<Message>

  /** Which acknowledgements the provider sends. */
  datatype Receipt = DeliveryReceipt | ReadReceipt

  // --- The statements ------------------------------------------------------------------------

  function NewMessage(createdAt: int): Message {
    Message(createdAt, Queued, None, None, None, None, None)
  }

  /** The unconditional status write of a dispatcher whose provider accepted the message. */
  function AsSent(m: Message, sentAt: int, externalId: string): Message {
    Message(m.createdAt, Sent, Some(sentAt), None, None, None, if externalId == "" then None else Some(externalId))
  }

  function AsFailed(m: Message, failedAt: int): Message {
    Message(m.createdAt, Failed, None, None, None, Some(failedAt), None)
  }

  /** Row `i` answers a lookup by provider id: it carries it and no match is newer. */
  predicate Answers(rows: Table, i: nat, externalId: string) {
    && i < |rows| && rows[i].externalId == Some(externalId)
    && forall k :: 0 <= k < |rows| && rows[k].externalId == Some(externalId) ==> rows[k].createdAt <= rows[i].createdAt
  }

  /** An acknowledgement that would not move the message is skipped. */
  predicate Skips(m: Message, receipt: Receipt) {
    m.status.Read? || m.status.Failed? || (m.status.Delivered? && receipt.DeliveryReceipt?)
  }

  /** The write of an acknowledgement: it carries the earlier columns over. */
  function Acked(m: Message, receipt: Receipt, ackAt: int): Message {
    m.(status := if receipt.ReadReceipt? then Read else Delivered,
       deliveredAt := if m.deliveredAt.None? then Some(ackAt) else m.deliveredAt,
       readAt := if receipt.ReadReceipt? then Some(ackAt) else m.readAt)
  }

  // --- Interleaved steps -----------------------------------------------------------------------

  /** An acknowledgement between its SELECT and its UPDATE: the row as it was read. */
  datatype PendingAck = PendingAck(row: nat, read: Message, receipt: Receipt, ackAt: int)

  /** The rows, which of them still wait for their dispatcher's write, and the acknowledgements in flight. */
  datatype State = State(rows: Table, pending: set<nat>, acks: map<nat, PendingAck>)

  const START := State([], {}, map[])

  datatype Action =
    | Create(createdAt: int)
    | RecordSent(row: nat, sentAt: int, externalId: string)
    | RecordFailed(row: nat, failedAt: int)
    | LoseDispatcher(row: nat)
    | AckRead(call: nat, row: nat, externalId: string, receipt: Receipt, ackAt: int)
    | AckWrite(call: nat)

  /** One statement; an action that is not enabled leaves the state unchanged. */
  function Step(s: State, a: Action): State {
    match a
    case Create(createdAt) => s.(rows := s.rows + [NewMessage(createdAt)], pending := s.pending + {|s.rows|})
    case RecordSent(row, sentAt, externalId) =>
      if row in s.pending && row < |s.rows|
      then s.(rows := s.rows[row := AsSent(s.rows[row], sentAt, externalId)], pending := s.pending - {row}) else s
    case RecordFailed(row, failedAt) =>
      if row in s.pending && row < |s.rows|
      then s.(rows := s.rows[row := AsFailed(s.rows[row], failedAt)], pending := s.pending - {row}) else s
    case LoseDispatcher(row) => s.(pending := s.pending - {row})
    case AckRead(call, row, externalId, receipt, ackAt) =>
      if call !in s.acks && externalId != "" && Answers(s.rows, row, externalId) && !Skips(s.rows[row], receipt)
      then s.(acks := s.acks[call := PendingAck(row, s.rows[row], receipt, ackAt)]) else s
    case AckWrite(call) =>
      if call in s.acks && s.acks[call].row < |s.rows| then
        var ack := s.acks[call];
        s.(rows := s.rows[ack.row := Acked(ack.read, ack.receipt, ack.ackAt)], acks := s.acks - {call})
      else s
  }

  function Run(s: State, actions: seq<Action>): State
    decreases |actions|
  {
    if actions == [] then s else Run(Step(s, actions[0]), actions[1..])
  }

  // --- Invariant -------------------------------------------------------------------------------

  /** What the columns of a row in each status hold. */
  predicate WellFormed(m: Message) {
    match m.status
    case Queued => m.sentAt.None? && m.deliveredAt.None? && m.readAt.None? && m.failedAt.None? && m.externalId.None?
    case Sent => m.sentAt.Some? && m.deliveredAt.None? && m.readAt.None? && m.failedAt.None?
    case Delivered => m.sentAt.Some? && m.deliveredAt.Some? && m.readAt.None? && m.failedAt.None? && m.externalId.Some?
    case Read => m.sentAt.Some? && m.deliveredAt.Some? && m.readAt.Some? && m.failedAt.None? && m.externalId.Some?
    case Failed => m.sentAt.None? && m.deliveredAt.None? && m.readAt.None? && m.failedAt.Some? && m.externalId.None?
    case Cancelled => false
  }

  function Rank(status: Status): nat {
    match status
    case Queued => 0
    case Sent => 1
    case Delivered => 2
    case Read => 3
    case Failed => 3
    case Cancelled => 3
  }

  /** The sending half of a row: its identity and what its dispatcher wrote. */
  predicate SameSending(m: Message, n: Message) {
    m.createdAt == n.createdAt && m.sentAt == n.sentAt && m.failedAt == n.failedAt && m.externalId == n.externalId
  }

  /** What no interleaving can undo: a failed row never changes, and a sent one keeps what its dispatcher wrote. */
  predicate Endures(before: Message, after: Message) {
    && after.createdAt == before.createdAt
    && (before.status.Failed? ==> after == before)
    && (after.status.Failed? ==> before.status.Queued? || before.status.Failed?)
    && (before.sentAt.Some? ==> SameSending(before, after) && !after.status.Queued?)
    && (before.deliveredAt.Some? ==> after.deliveredAt.Some?)
    && (before.status.Queued? || Rank(before.status) <= Rank(after.status) || (before.status.Read? && after.status.Delivered?))
  }

  /** An acknowledgement in flight read a sent or delivered row, whose sending half has not changed since. */
  ghost predicate AckIsSane(s: State, call: nat)
    requires call in s.acks
  {
    var ack := s.acks[call];
    && ack.row < |s.rows| && WellFormed(ack.read) && !Skips(ack.read, ack.receipt) && ack.read.externalId.Some?
    && SameSending(ack.read, s.rows[ack.row])
    && Rank(ack.read.status) <= 2
    && (ack.read.deliveredAt.Some? ==> s.rows[ack.row].deliveredAt.Some?)
  }

  ghost predicate Inv(s: State) {
    && (forall i :: 0 <= i < |s.rows| ==> WellFormed(s.rows[i]))
    && (forall i :: i in s.pending ==> i < |s.rows| && s.rows[i].status.Queued?)
    && (forall call :: call in s.acks ==> AckIsSane(s, call))
  }

  lemma StepKeepsInv(s: State, a: Action)
    requires Inv(s)
    ensures Inv(Step(s, a))
    ensures |s.rows| <= |Step(s, a).rows|
    ensures forall i :: 0 <= i < |s.rows| ==> Endures(s.rows[i], Step(s, a).rows[i])
    ensures !a.Create? ==> |Step(s, a).rows| == |s.rows|
  {
    var t := Step(s, a);
    assert |s.rows| <= |t.rows| && (!a.Create? ==> |t.rows| == |s.rows|);
    forall i | 0 <= i < |t.rows|
      ensures WellFormed(t.rows[i]) && (i < |s.rows| ==> Endures(s.rows[i], t.rows[i]))
    {
      RowAfterStep(s, a, i);
    }
    forall i | i in t.pending ensures i < |t.rows| && t.rows[i].status.Queued? {
      PendingAfterStep(s, a, i);
    }
    forall call | call in t.acks ensures AckIsSane(t, call) {
      AckAfterStep(s, a, call);
    }
    hide *;
    InvFromParts(t);
  }

  lemma InvFromParts(s: State)
    requires forall i :: 0 <= i < |s.rows| ==> WellFormed(s.rows[i])
    requires forall i :: i in s.pending ==> i < |s.rows| && s.rows[i].status.Queued?
    requires forall call :: call in s.acks ==> AckIsSane(s, call)
    ensures Inv(s)
  {}

  lemma RowAfterStep(s: State, a: Action, i: nat)
    requires Inv(s) && i < |Step(s, a).rows|
    ensures WellFormed(Step(s, a).rows[i])
    ensures i < |s.rows| ==> Endures(s.rows[i], Step(s, a).rows[i])
  {
    if a.AckWrite? && a.call in s.acks {
      assert AckIsSane(s, a.call);
    }
  }

  lemma PendingAfterStep(s: State, a: Action, i: nat)
    requires Inv(s) && i in Step(s, a).pending
    ensures i < |Step(s, a).rows| && Step(s, a).rows[i].status.Queued?
  {
    if a.AckWrite? && a.call in s.acks {
      assert AckIsSane(s, a.call);
    }
  }

  lemma AckAfterStep(s: State, a: Action, call: nat)
    requires Inv(s) && call in Step(s, a).acks
    ensures AckIsSane(Step(s, a), call)
  {
    var t := Step(s, a);
    if call in s.acks {
      assert AckIsSane(s, call);
      RowAfterStep(s, a, s.acks[call].row);
    }
  }

  lemma {:induction false} RunKeepsInv(s: State, actions: seq<Action>)
    requires Inv(s)
    ensures Inv(Run(s, actions))
    ensures |s.rows| <= |Run(s, actions).rows|
    decreases |actions|
  {
    if actions != [] {
      StepKeepsInv(s, actions[0]);
      RunKeepsInv(Step(s, actions[0]), actions[1..]);
    }
  }

  // --- In every interleaving ---------------------------------------------------------------------

  lemma EnduresIsTransitive(a: Message, b: Message, c: Message)
    requires WellFormed(a) && WellFormed(b) && WellFormed(c) && Endures(a, b) && Endures(b, c)
    ensures Endures(a, c)
  {}

  /** In every interleaving, from any reachable state on, rows endure. */
  lemma {:induction false} RowsEndure(s: State, actions: seq<Action>, i: nat)
    requires Inv(s) && i < |s.rows|
    ensures i < |Run(s, actions).rows| && Endures(s.rows[i], Run(s, actions).rows[i])
    decreases |actions|
  {
    RunKeepsInv(s, actions);
    if actions != [] {
      var t := Step(s, actions[0]);
      StepKeepsInv(s, actions[0]);
      RowsEndure(t, actions[1..], i);
      EnduresIsTransitive(s.rows[i], t.rows[i], Run(t, actions[1..]).rows[i]);
    }
  }

  /** No acknowledgement lands before the sent write, and a read message has both timestamps. */
  lemma AckedMessagesWereSent(actions: seq<Action>, i: nat)
    requires i < |Run(START, actions).rows|
    ensures var m := Run(START, actions).rows[i];
            && (m.deliveredAt.Some? || m.readAt.Some? ==> m.sentAt.Some? && m.externalId.Some?)
            && (m.status.Delivered? || m.status.Read? <==> m.deliveredAt.Some?)
            && (m.status.Read? <==> m.readAt.Some?)
            && (i in Run(START, actions).pending ==> m == NewMessage(m.createdAt))
  {
    RunKeepsInv(START, actions);
    assert WellFormed(Run(START, actions).rows[i]);
  }

  /** What a dispatcher records stays on the row in every continuation: the time and the provider id it gave. */
  lemma SendingIsRecordedForGood(s: State, row: nat, sentAt: int, externalId: string, later: seq<Action>)
    requires Inv(s) && row in s.pending
    ensures var t := Step(s, RecordSent(row, sentAt, externalId));
            var end := Run(t, later);
            && row < |t.rows| && t.rows[row].status.Sent? && row < |end.rows| && row !in t.pending
            && end.rows[row].createdAt == s.rows[row].createdAt && end.rows[row].sentAt == Some(sentAt)
            && (externalId == "" ==> end.rows[row].externalId.None?)
            && (externalId != "" ==> end.rows[row].externalId == Some(externalId))
            && (end.rows[row].status.Sent? || end.rows[row].status.Delivered? || end.rows[row].status.Read?)
  {
    var a := RecordSent(row, sentAt, externalId);
    StepKeepsInv(s, a);
    RowsEndure(Step(s, a), later, row);
    RunKeepsInv(Step(s, a), later);
    assert WellFormed(Run(Step(s, a), later).rows[row]);
    hide Run;
  }

  /** A failure is recorded with its time and is final. */
  lemma FailureIsRecordedForGood(s: State, row: nat, failedAt: int, later: seq<Action>)
    requires Inv(s) && row in s.pending
    ensures var end := Run(Step(s, RecordFailed(row, failedAt)), later);
            row < |end.rows| && end.rows[row] == Message(s.rows[row].createdAt, Failed, None, None, None, Some(failedAt), None)
  {
    var a := RecordFailed(row, failedAt);
    StepKeepsInv(s, a);
    RowsEndure(Step(s, a), later, row);
    hide Run;
  }

  /** A receipt that finds its row undisturbed stores its kind and, in a column not set yet, its time; everything else stays. */
  lemma ReceiptIsStored(s: State, call: nat)
    requires Inv(s) && call in s.acks && s.acks[call].row < |s.rows| && s.rows[s.acks[call].row] == s.acks[call].read
    ensures var ack := s.acks[call];
            var before, after := s.rows[ack.row], Step(s, AckWrite(call)).rows[ack.row];
            && SameSending(before, after)
            && (ack.receipt.ReadReceipt? ==> after.status.Read? && after.readAt == Some(ack.ackAt))
            && (ack.receipt.DeliveryReceipt? ==> after.status.Delivered? && after.readAt == before.readAt)
            && (before.deliveredAt.Some? ==> after.deliveredAt == before.deliveredAt)
            && (before.deliveredAt.None? ==> after.deliveredAt == Some(ack.ackAt))
  {}

  /** A receipt is acted on exactly when it is ahead of a row that was sent. */
  lemma ReceiptsAheadAreActedOn(s: State, call: nat, row: nat, externalId: string, receipt: Receipt, ackAt: int)
    requires Inv(s) && call !in s.acks && externalId != "" && Answers(s.rows, row, externalId)
    ensures call in Step(s, AckRead(call, row, externalId, receipt, ackAt)).acks <==>
              s.rows[row].status.Sent? || (s.rows[row].status.Delivered? && receipt.ReadReceipt?)
  {
    assert WellFormed(s.rows[row]);
  }

  // --- Forward, unless overtaken ---------------------------------------------------------------------

  /** Row `i` has become read since this acknowledgement looked at it, and its delivery receipt is about to overwrite that. */
  predicate Overtaken(s: State, a: Action, i: nat) {
    && a.AckWrite? && a.call in s.acks && s.acks[a.call].row == i < |s.rows|
    && s.rows[i].status.Read? && s.acks[a.call].receipt.DeliveryReceipt?
  }

  /** A step takes a row back if and only if it is an overtaken write, and then the read timestamp is lost. */
  lemma OnlyOvertakenWritesGoBack(s: State, a: Action, i: nat)
    requires Inv(s) && i < |s.rows|
    ensures i < |Step(s, a).rows|
    ensures Rank(Step(s, a).rows[i].status) < Rank(s.rows[i].status) <==> Overtaken(s, a, i)
    ensures Overtaken(s, a, i) ==> Step(s, a).rows[i].status.Delivered? && Step(s, a).rows[i].readAt.None?
    ensures !Overtaken(s, a, i) && s.rows[i].status.Read? ==> Step(s, a).rows[i].status.Read?
  {
    if a.AckWrite? && a.call in s.acks {
      assert AckIsSane(s, a.call);
    }
  }

  ghost predicate NeverOvertaken(s: State, actions: seq<Action>, i: nat)
    decreases |actions|
  {
    actions != [] ==> !Overtaken(s, actions[0], i) && NeverOvertaken(Step(s, actions[0]), actions[1..], i)
  }

  /** How a status moves along queued, sent, delivered, read, or from queued to failed. */
  predicate Forward(before: Status, after: Status) {
    Rank(before) <= Rank(after) && (before.Read? || before.Failed? ==> after == before) && (after.Failed? ==> before.Queued? || before.Failed?)
  }

  /** In every interleaving, a row moves forward at every step if and only if no write on it is overtaken. */
  lemma {:induction false} StatusMovesForwardUnlessOvertaken(s: State, actions: seq<Action>, i: nat)
    requires Inv(s) && i < |s.rows|
    ensures ForwardAllAlong(s, actions, i) <==> NeverOvertaken(s, actions, i)
    decreases |actions|
  {
    if actions != [] {
      StepKeepsInv(s, actions[0]);
      OnlyOvertakenWritesGoBack(s, actions[0], i);
      assert Endures(s.rows[i], Step(s, actions[0]).rows[i]);
      StatusMovesForwardUnlessOvertaken(Step(s, actions[0]), actions[1..], i);
    }
  }

  ghost predicate ForwardAllAlong(s: State, actions: seq<Action>, i: nat)
    requires i < |s.rows|
    decreases |actions|
  {
    actions != [] ==>
      var t := Step(s, actions[0]);
      i < |t.rows| && Forward(s.rows[i].status, t.rows[i].status) && ForwardAllAlong(t, actions[1..], i)
  }

  /** And then it is forward from the first state to the last: read and failed rows stay so. */
  lemma {:induction false} StatusOnlyMovesForward(s: State, actions: seq<Action>, i: nat)
    requires Inv(s) && i < |s.rows| && NeverOvertaken(s, actions, i)
    ensures i < |Run(s, actions).rows| && Forward(s.rows[i].status, Run(s, actions).rows[i].status)
    decreases |actions|
  {
    if actions != [] {
      StepKeepsInv(s, actions[0]);
      OnlyOvertakenWritesGoBack(s, actions[0], i);
      assert Endures(s.rows[i], Step(s, actions[0]).rows[i]);
      StatusOnlyMovesForward(Step(s, actions[0]), actions[1..], i);
    }
  }

  /** Two receipts that read a sent row, the read receipt written first: the row goes from read back to delivered. */
  lemma ReadIsLostToALateDelivery(id: string)
    requires id != ""
    ensures var before := [Create(0), RecordSent(0, 1, id), AckRead(1, 0, id, DeliveryReceipt, 2), AckRead(2, 0, id, ReadReceipt, 3), AckWrite(2)];
            var s := Run(START, before);
            && |s.rows| == 1 && s.rows[0].status.Read? && s.rows[0].readAt == Some(3)
            && |Step(s, AckWrite(1)).rows| == 1
            && Step(s, AckWrite(1)).rows[0].status.Delivered? && Step(s, AckWrite(1)).rows[0].readAt.None?
  {
    var a, b, c, d, e := Create(0), RecordSent(0, 1, id), AckRead(1, 0, id, DeliveryReceipt, 2), AckRead(2, 0, id, ReadReceipt, 3), AckWrite(2);
    var s1 := Step(START, a);
    var s2 := Step(s1, b);
    var s3 := Step(s2, c);
    var s4 := Step(s3, d);
    assert [a, b, c, d, e][1..] == [b, c, d, e] && [b, c, d, e][1..] == [c, d, e] && [c, d, e][1..] == [d, e] && [d, e][1..] == [e] && [e][1..] == [];
    assert Run(s1, [b, c, d, e]) == Run(s2, [c, d, e]);
    assert Run(s2, [c, d, e]) == Run(s3, [d, e]);
    assert Run(s3, [d, e]) == Run(s4, [e]);
    assert Run(s4, [e]) == Run(Step(s4, e), []);
  }

  // --- Columns --------------------------------------------------------------------------------------

  /** The row is as the acknowledgement read it. */
  predicate Undisturbed(s: State, a: Action) {
    a.AckWrite? && a.call in s.acks && s.acks[a.call].row < |s.rows| ==> s.rows[s.acks[a.call].row] == s.acks[a.call].read
  }

  /** Forward, and without rewriting a timestamp. */
  predicate Leads(before: Message, after: Message) {
    && Forward(before.status, after.status)
    && Endures(before, after)
    && (before.status == after.status ==> after == before)
    && (before.deliveredAt.Some? ==> after.deliveredAt == before.deliveredAt)
  }

  /** A write that finds the row as it was read also keeps the timestamps already set. */
  lemma UndisturbedWritesKeepTimestamps(s: State, a: Action, i: nat)
    requires Inv(s) && Undisturbed(s, a) && i < |s.rows|
    ensures i < |Step(s, a).rows| && Leads(s.rows[i], Step(s, a).rows[i])
  {
    StepKeepsInv(s, a);
    if a.AckWrite? && a.call in s.acks {
      assert AckIsSane(s, a.call);
    }
  }

  // --- The acknowledgement handler ------------------------------------------------------------------

  /** The row a lookup by provider id returns, or the table size. */
  function FindByExternalId(rows: Table, externalId: string): (i: nat)
    ensures i <= |rows|
    ensures i < |rows| ==> Answers(rows, i, externalId)
    ensures i < |rows| ==> rows[i].externalId == Some(externalId)
    ensures forall k :: i < |rows| && 0 <= k < |rows| && rows[k].externalId == Some(externalId) ==> rows[k].createdAt <= rows[i].createdAt
    ensures i == |rows| ==> forall k :: 0 <= k < |rows| ==> rows[k].externalId != Some(externalId)
  {
    if rows == [] then 0
    else
      var last := |rows| - 1;
      var i := FindByExternalId(rows[..last], externalId);
      assert forall k :: 0 <= k < last ==> rows[..last][k] == rows[k];
      if rows[last].externalId != Some(externalId) then (if i == last then |rows| else i)
      else if i == last || rows[i].createdAt < rows[last].createdAt then last
      else i
  }

  /** Whether one id of an acknowledgement changes a row. */
  predicate Moves(rows: Table, id: string, receipt: Receipt) {
    var externalId := Text.Trim(id);
    var i := FindByExternalId(rows, externalId);
    externalId != "" && i < |rows| && !Skips(rows[i], receipt)
  }

  function AckOne(rows: Table, id: string, receipt: Receipt, ackAt: int): (after: Table)
    ensures |after| == |rows|
  {
    var i := FindByExternalId(rows, Text.Trim(id));
    if Moves(rows, id, receipt) then rows[i := Acked(rows[i], receipt, ackAt)] else rows
  }

  /** Space around an id does not matter, and a blank id does nothing. */
  lemma IdsAreTrimmed(rows: Table, id: string, receipt: Receipt, ackAt: int)
    ensures AckOne(rows, id, receipt, ackAt) == AckOne(rows, Text.Trim(id), receipt, ackAt)
    ensures Text.Trim(id) == "" ==> AckOne(rows, id, receipt, ackAt) == rows
  {
    Text.TrimIsIdempotent(id);
    hide Text.Trim, FindByExternalId;
  }

  /** The rows after the ids of a payload, taken in order. */
  function AckAll(rows: Table, ids: seq<string>, receipt: Receipt, ackAt: int): Table {
    if ids == [] then rows
    else AckOne(AckAll(rows, ids[..|ids| - 1], receipt, ackAt), ids[|ids| - 1], receipt, ackAt)
  }

  function CountMoves(rows: Table, ids: seq<string>, receipt: Receipt, ackAt: int): nat {
    if ids == [] then 0
    else
      var rest := ids[..|ids| - 1];
      CountMoves(rows, rest, receipt, ackAt)
      + if Moves(AckAll(rows, rest, receipt, ackAt), ids[|ids| - 1], receipt) then 1 else 0
  }

  /** Which lookups and updates fail, by position in the payload. */
  datatype Faults = Faults(lookup: nat -> bool, update: nat -> bool)

  predicate Stops(rows: Table, id: string, k: nat, receipt: Receipt, faults: Faults) {
    Text.Trim(id) != "" && (faults.lookup(k) || (Moves(rows, id, receipt) && faults.update(k)))
  }

  lemma NothingHandled(rows: Table, ids: seq<string>, receipt: Receipt, ackAt: int)
    ensures AckAll(rows, ids[..0], receipt, ackAt) == rows && CountMoves(rows, ids[..0], receipt, ackAt) == 0
  {}

  lemma OneMoreId(rows: Table, ids: seq<string>, n: nat, receipt: Receipt, ackAt: int)
    requires n < |ids|
    ensures var before := AckAll(rows, ids[..n], receipt, ackAt);
            && AckAll(rows, ids[..n + 1], receipt, ackAt) == AckOne(before, ids[n], receipt, ackAt)
            && CountMoves(rows, ids[..n + 1], receipt, ackAt) ==
                 CountMoves(rows, ids[..n], receipt, ackAt) + if Moves(before, ids[n], receipt) then 1 else 0
  {
    hide Moves, AckOne;
    assert ids[..n + 1][..n] == ids[..n];
  }

  /** The webhook over the message table. */
  class AckHandler {
    var rows: Table

    /** `handled` ids are applied; the next one, if any, is the first whose lookup or update fails, which ends the call. */
    method Handle(ids: seq<string>, receipt: Receipt, ackAt: int, faults: Faults) returns (updated: Option<nat>, handled: nat)
      modifies this
      ensures handled <= |ids| && rows == AckAll(old(rows), ids[..handled], receipt, ackAt)
      ensures forall k :: 0 <= k < handled ==> !Stops(AckAll(old(rows), ids[..k], receipt, ackAt), ids[k], k, receipt, faults)
      ensures handled < |ids| ==> Stops(rows, ids[handled], handled, receipt, faults)
      ensures updated == if handled == |ids| then Some(CountMoves(old(rows), ids, receipt, ackAt)) else None
    {
      hide FindByExternalId, Text.Trim, Acked, Skips, AckAll, CountMoves;
      NothingHandled(rows, ids, receipt, ackAt);
      var count := 0;
      for n := 0 to |ids|
        invariant rows == AckAll(old(rows), ids[..n], receipt, ackAt)
        invariant count == CountMoves(old(rows), ids[..n], receipt, ackAt)
        invariant forall k :: 0 <= k < n ==> !Stops(AckAll(old(rows), ids[..k], receipt, ackAt), ids[k], k, receipt, faults)
      {
        OneMoreId(old(rows), ids, n, receipt, ackAt);
        var externalId := Text.Trim(ids[n]);
        if externalId != "" {
          if faults.lookup(n) {
            return None, n;
          }
          var i := FindByExternalId(rows, externalId);
          if i < |rows| && !Skips(rows[i], receipt) {
            if faults.update(n) {
              return None, n;
            }
            rows := rows[i := Acked(rows[i], receipt, ackAt)];
            count := count + 1;
          }
        }
      }
      assert ids[..|ids|] == ids;
      return Some(count), |ids|;
    }
  }

  /** Each id the handler applies undisturbed is the two steps of the machine in a row. */
  lemma AckOneIsTwoSteps(s: State, call: nat, id: string, receipt: Receipt, ackAt: int)
    requires call !in s.acks
    ensures var i := FindByExternalId(s.rows, Text.Trim(id));
            Step(Step(s, AckRead(call, i, Text.Trim(id), receipt, ackAt)), AckWrite(call)).rows == AckOne(s.rows, id, receipt, ackAt)
  {
    hide FindByExternalId, Text.Trim;
  }

  /** An acknowledgement keeps provider ids and creation times, so lookups answer as before. */
  predicate SameKeys(before: Table, after: Table) {
    && |before| == |after|
    && forall i :: 0 <= i < |before| ==>
         after[i].externalId == before[i].externalId && after[i].createdAt == before[i].createdAt
  }

  lemma {:induction false} SameKeysSameLookup(before: Table, after: Table, externalId: string)
    requires SameKeys(before, after)
    ensures FindByExternalId(before, externalId) == FindByExternalId(after, externalId)
  {
    if before != [] {
      SameKeysSameLookup(before[..|before| - 1], after[..|after| - 1], externalId);
    }
  }

  /** Once an id no longer moves anything, no acknowledgement of the same kind revives it. */
  lemma AckKeepsSettled(rows: Table, id: string, other: string, receipt: Receipt, ackAt: int)
    requires !Moves(rows, id, receipt)
    ensures !Moves(AckOne(rows, other, receipt, ackAt), id, receipt)
  {
    SameKeysSameLookup(rows, AckOne(rows, other, receipt, ackAt), Text.Trim(id));
  }

  lemma AckSettles(rows: Table, id: string, receipt: Receipt, ackAt: int)
    ensures !Moves(AckOne(rows, id, receipt, ackAt), id, receipt)
  {
    SameKeysSameLookup(rows, AckOne(rows, id, receipt, ackAt), Text.Trim(id));
  }

  lemma {:induction false} AckAllSettles(rows: Table, ids: seq<string>, receipt: Receipt, ackAt: int, k: nat)
    requires k < |ids|
    ensures !Moves(AckAll(rows, ids, receipt, ackAt), ids[k], receipt)
    decreases |ids|
  {
    hide Moves, AckOne;
    var rest := ids[..|ids| - 1];
    var before := AckAll(rows, rest, receipt, ackAt);
    if k == |rest| {
      AckSettles(before, ids[k], receipt, ackAt);
    } else {
      AckAllSettles(rows, rest, receipt, ackAt, k);
      AckKeepsSettled(before, ids[k], ids[|ids| - 1], receipt, ackAt);
    }
  }

  lemma {:induction false} SettledIdsDoNothing(rows: Table, ids: seq<string>, receipt: Receipt, ackAt: int)
    requires forall k :: 0 <= k < |ids| ==> !Moves(rows, ids[k], receipt)
    ensures AckAll(rows, ids, receipt, ackAt) == rows && CountMoves(rows, ids, receipt, ackAt) == 0
  {
    if ids != [] {
      SettledIdsDoNothing(rows, ids[..|ids| - 1], receipt, ackAt);
    }
  }

  /** A redelivered acknowledgement changes nothing and reports nothing updated, whatever its timestamp. */
  lemma RedeliveryChangesNothing(rows: Table, ids: seq<string>, receipt: Receipt, ackAt: int, again: int)
    ensures var once := AckAll(rows, ids, receipt, ackAt);
            AckAll(once, ids, receipt, again) == once && CountMoves(once, ids, receipt, again) == 0
  {
    var once := AckAll(rows, ids, receipt, ackAt);
    forall k | 0 <= k < |ids| ensures !Moves(once, ids[k], receipt) {
      AckAllSettles(rows, ids, receipt, ackAt, k);
    }
    SettledIdsDoNothing(once, ids, receipt, again);
  }
}
