/** The gateway's two tables and the transactions on them.

    Both tables assign row ids with AUTOINCREMENT and no row is ever deleted, so a table is the sequence of its rows
    and the row with id n is entry n - 1; id 0 means "no row", as in the source.  Every transaction has two forms: a
    function on the pair of tables, which the protocol and its theorems use, and a method of the class `State` that
    does it step by step in place. */
module GatewayState {
  import opened Wrappers
  import GoStrings
  import TimeText

  const MINUTE: nat := 60 * TimeText.NANOS_PER_SECOND

  datatype Status = Pending | Processing | Done | Failed

  /** A row of gateway__inbound; times are stored text. */
  datatype InboundRow = InboundRow(
    session: string,
    channel: string,
    text: string,
    input: string,
    receivedAt: string,
    status: Status,
    attempts: nat,
    nextAttemptAt: Option<string>,
    leaseUntil: Option<string>,
    processedAt: Option<string>,
    errorText: Option<string>)
  {
    predicate Active() { status == Pending || status == Processing }
    predicate Terminal() { status == Done || status == Failed }
  }

  /** A row of gateway__outbox. */
  datatype OutboxRow = OutboxRow(session: string, channel: string, text: string, inReplyTo: nat, sentAt: string)

  datatype Tables = Tables(inbound: seq<InboundRow>, outbox: seq<OutboxRow>)
  {
    predicate Has(id: nat) { 1 <= id <= |inbound| }

    function Row(id: nat): InboundRow
      requires Has(id)
    {
      inbound[id - 1]
    }

    function Update(id: nat, row: InboundRow): Tables
      requires Has(id)
    {
      this.(inbound := inbound[id - 1 := row])
    }
  }

  /** What inboundByID hands to a worker. */
  datatype ClaimedRow = ClaimedRow(
    id: nat, attempt: nat, session: string, channel: string, text: string, input: string, receivedAt: string)

  function LeaseText(now: nat, duration: int): string {
    TimeText.Format(now + (if duration <= 0 then MINUTE else duration))
  }

  // ---------- the transactions, as functions ----------

  function NewRow(session: string, channel: string, text: string, input: string, at: nat): InboundRow {
    InboundRow(session, GoStrings.TrimSpace(channel), text, input, TimeText.Format(at), Pending, 0,
               Some(TimeText.Format(at)), None, None, None)
  }

  function TxInsert(t: Tables, session: string, channel: string, text: string, input: string, at: nat): Tables {
    t.(inbound := t.inbound + [NewRow(session, channel, text, input, at)])
  }

  /** The least id of the session's pending and processing rows, or 0. */
  function HeadId(rows: seq<InboundRow>, session: string): (id: nat)
    ensures id == 0 <==> forall i :: 0 <= i < |rows| ==> !(rows[i].session == session && rows[i].Active())
    ensures id > 0 ==> id <= |rows| && rows[id - 1].session == session && rows[id - 1].Active()
    ensures id > 0 ==> forall i :: 0 <= i < id - 1 ==> !(rows[i].session == session && rows[i].Active())
  {
    if rows == [] then 0
    else
      var last := |rows| - 1;
      var earlier := HeadId(rows[..last], session);
      if earlier != 0 then earlier
      else if rows[last].session == session && rows[last].Active() then |rows|
      else 0
  }

  predicate DueBy(stamp: Option<string>, now: nat) {
    stamp.None? || TimeText.TextLE(stamp.value, TimeText.Format(now))
  }

  predicate Claimable(row: InboundRow, now: nat) {
    || (row.status == Pending && DueBy(row.nextAttemptAt, now))
    || (row.status == Processing && DueBy(row.leaseUntil, now))
  }

  /** Claim the head of the session's queue; the result is the claimed id, or 0. */
  function TxClaim(t: Tables, session: string, now: nat, duration: int): (Tables, nat) {
    var id := HeadId(t.inbound, session);
    if id == 0 || !Claimable(t.Row(id), now) then (t, 0)
    else
      var row := t.Row(id);
      (t.Update(id, row.(status := Processing, attempts := row.attempts + 1,
                         leaseUntil := Some(LeaseText(now, duration)), processedAt := None)),
       id)
  }

  function TxRead(t: Tables, id: nat): Option<ClaimedRow> {
    if !t.Has(id) then None
    else
      var row := t.Row(id);
      Some(ClaimedRow(id, if row.attempts < 1 then 1 else row.attempts, row.session, row.channel, row.text, row.input,
                      row.receivedAt))
  }

  /** What a worker is given is the message of the row. */
  predicate SameMessage(job: ClaimedRow, id: nat, row: InboundRow) {
    && job.id == id && job.session == row.session && job.channel == row.channel
    && job.text == row.text && job.input == row.input && job.receivedAt == row.receivedAt
  }

  /** The fence every late write must pass: the row is in process under the very attempt the worker read. */
  predicate Holds(t: Tables, id: nat, attempt: nat) {
    t.Has(id) && t.Row(id).status == Processing && t.Row(id).attempts == attempt
  }

  function TxRenew(t: Tables, id: nat, attempt: nat, now: nat, duration: int): (Tables, bool) {
    if !Holds(t, id, attempt) then (t, false)
    else (t.Update(id, t.Row(id).(leaseUntil := Some(LeaseText(now, duration)))), true)
  }

  function TxRetry(t: Tables, id: nat, attempt: nat, errorText: string, nextAttempt: nat): (Tables, bool) {
    if !Holds(t, id, attempt) then (t, false)
    else
      (t.Update(id, t.Row(id).(status := Pending, nextAttemptAt := Some(TimeText.Format(nextAttempt)),
                               leaseUntil := None, processedAt := None,
                               errorText := Some(GoStrings.TrimSpace(errorText)))),
       true)
  }

  function TxInsertOutbox(t: Tables, session: string, channel: string, text: string, inReplyTo: nat, at: nat): Tables {
    t.(outbox := t.outbox + [OutboxRow(session, GoStrings.TrimSpace(channel), text, inReplyTo, TimeText.Format(at))])
  }

  /** Success and failure differ in status and error text only; both write the reply in the same transaction.
      The result is the new outbox id, or 0 when the fence did not let the worker through. */
  function TxFinish(t: Tables, session: string, channel: string, reply: string, id: nat, attempt: nat, at: nat,
                    failure: Option<string>): (Tables, nat)
  {
    if !Holds(t, id, attempt) then (t, 0)
    else
      var row := t.Row(id).(status := if failure.None? then Done else Failed,
                            processedAt := Some(TimeText.Format(at)), leaseUntil := None,
                            errorText := if failure.None? then None else Some(GoStrings.TrimSpace(failure.value)));
      (TxInsertOutbox(t.Update(id, row), session, channel, reply, id, at), |t.outbox| + 1)
  }

  /** Rows of one session with ids above lastId, in id order, at most `limit` of them, each with its id. */
  function OutboxSinceFrom(outbox: seq<OutboxRow>, session: string, lastId: nat, limit: nat, from: nat): (r: seq<nat>)
    ensures |r| <= limit
    decreases |outbox| - from
  {
    if from >= |outbox| || limit == 0 then []
    else if from + 1 > lastId && outbox[from].session == session then
      [from + 1] + OutboxSinceFrom(outbox, session, lastId, limit - 1, from + 1)
    else OutboxSinceFrom(outbox, session, lastId, limit, from + 1)
  }

  // ---------- the transactions, in place ----------

  class State {
    var inbound: seq<InboundRow>
    var outbox: seq<OutboxRow>

    function Snapshot(): Tables
      reads this
    {
      Tables(inbound, outbox)
    }

    constructor ()
      ensures Snapshot() == Tables([], [])
    {
      inbound, outbox := [], [];
    }

    method InsertInbound(session: string, channel: string, text: string, input: string, at: nat) returns (id: nat)
      modifies this
      ensures Snapshot() == TxInsert(old(Snapshot()), session, channel, text, input, at)
      ensures id == |inbound|
    {
      var row := NewRow(session, channel, text, input, at);
      inbound := inbound + [row];
      id := |inbound|;
    }

    /** The query for the head of the session's queue. */
    method HeadOfQueue(session: string) returns (id: nat)
      ensures id == HeadId(inbound, session)
    {
      id := 0;
      var i := 0;
      while i < |inbound| && id == 0
        invariant i <= |inbound| && id == HeadId(inbound[..i], session)
      {
        assert inbound[..i + 1][..i] == inbound[..i];
        if inbound[i].session == session && inbound[i].Active() {
          id := i + 1;
        }
        i := i + 1;
      }
      HeadOfPrefix(inbound, session, i);
    }

    method ClaimDueInboundID(session: string, now: nat, leaseDuration: int) returns (id: nat)
      modifies this
      ensures (Snapshot(), id) == TxClaim(old(Snapshot()), session, now, leaseDuration)
    {
      hide HeadId, Claimable, LeaseText;
      id := HeadOfQueue(session);
      if id == 0 {
        return;
      }
      var row := inbound[id - 1];
      if !Claimable(row, now) {
        id := 0;
        return;
      }
      inbound := inbound[id - 1 := row.(status := Processing, attempts := row.attempts + 1,
                                        leaseUntil := Some(LeaseText(now, leaseDuration)), processedAt := None)];
    }

    method InboundByID(id: nat) returns (row: Option<ClaimedRow>)
      ensures row == TxRead(Snapshot(), id)
      ensures row.Some? <==> 1 <= id <= |inbound|
      ensures row.Some? ==> SameMessage(row.value, id, inbound[id - 1])
    {
      if id == 0 || id > |inbound| {
        return None;
      }
      var found := inbound[id - 1];
      var attempt := found.attempts;
      if attempt < 1 {
        attempt := 1;
      }
      return Some(ClaimedRow(id, attempt, found.session, found.channel, found.text, found.input, found.receivedAt));
    }

    /** Claim, then read.  The source repeats both when the row has vanished in between, which no transaction can
        cause: the read of a claimed id always finds its row. */
    method ClaimDueInbound(session: string, now: nat, leaseDuration: int) returns (row: Option<ClaimedRow>)
      modifies this
      ensures var (t, id) := TxClaim(old(Snapshot()), session, now, leaseDuration);
              && Snapshot() == t
              && row == (if id == 0 then None else TxRead(t, id))
              && (id != 0 ==> row.Some? && t.Has(id) && SameMessage(row.value, id, t.Row(id)))
    {
      row := None;
      var id := ClaimDueInboundID(session, now, leaseDuration);
      if id != 0 {
        row := InboundByID(id);
      }
    }

    method RenewInboundLease(id: nat, attempt: nat, now: nat, leaseDuration: int) returns (renewed: bool)
      modifies this
      ensures (Snapshot(), renewed) == TxRenew(old(Snapshot()), id, attempt, now, leaseDuration)
    {
      renewed := Holds(Snapshot(), id, attempt);
      if renewed {
        inbound := inbound[id - 1 := inbound[id - 1].(leaseUntil := Some(LeaseText(now, leaseDuration)))];
      }
    }

    method MarkInboundRetry(id: nat, attempt: nat, errorText: string, nextAttemptAt: nat) returns (claimed: bool)
      modifies this
      ensures (Snapshot(), claimed) == TxRetry(old(Snapshot()), id, attempt, errorText, nextAttemptAt)
    {
      claimed := Holds(Snapshot(), id, attempt);
      if claimed {
        inbound := inbound[id - 1 := inbound[id - 1].(
          status := Pending, nextAttemptAt := Some(TimeText.Format(nextAttemptAt)), leaseUntil := None,
          processedAt := None, errorText := Some(GoStrings.TrimSpace(errorText)))];
      }
    }

    method InsertOutbox(session: string, channel: string, text: string, inReplyTo: nat, at: nat) returns (id: nat)
      modifies this`outbox
      ensures Snapshot() == TxInsertOutbox(old(Snapshot()), session, channel, text, inReplyTo, at)
      ensures id == |outbox|
    {
      outbox := outbox + [OutboxRow(session, GoStrings.TrimSpace(channel), text, inReplyTo, TimeText.Format(at))];
      id := |outbox|;
    }

    method CompleteInboundSuccess(session: string, channel: string, reply: string, id: nat, attempt: nat, at: nat)
      returns (outboxId: nat, claimed: bool)
      modifies this
      ensures (Snapshot(), outboxId) == TxFinish(old(Snapshot()), session, channel, reply, id, attempt, at, None)
      ensures claimed == old(Holds(Snapshot(), id, attempt))
    {
      outboxId, claimed := 0, Holds(Snapshot(), id, attempt);
      if claimed {
        inbound := inbound[id - 1 := inbound[id - 1].(
          status := Done, processedAt := Some(TimeText.Format(at)), errorText := None, leaseUntil := None)];
        outboxId := InsertOutbox(session, channel, reply, id, at);
      }
    }

    method CompleteInboundFailure(session: string, channel: string, failureText: string, id: nat, attempt: nat,
                                  at: nat, errorText: string)
      returns (outboxId: nat, claimed: bool)
      modifies this
      ensures (Snapshot(), outboxId)
           == TxFinish(old(Snapshot()), session, channel, failureText, id, attempt, at, Some(errorText))
      ensures claimed == old(Holds(Snapshot(), id, attempt))
    {
      outboxId, claimed := 0, Holds(Snapshot(), id, attempt);
      if claimed {
        inbound := inbound[id - 1 := inbound[id - 1].(
          status := Failed, processedAt := Some(TimeText.Format(at)), leaseUntil := None,
          errorText := Some(GoStrings.TrimSpace(errorText)))];
        outboxId := InsertOutbox(session, channel, failureText, id, at);
      }
    }

    method OutboxSince(session: string, lastId: nat, limit: nat) returns (ids: seq<nat>)
      ensures ids == OutboxSinceFrom(outbox, session, lastId, limit, 0)
    {
      ids := [];
      var i := 0;
      while i < |outbox| && |ids| < limit
        invariant i <= |outbox| && |ids| <= limit
        invariant ids + OutboxSinceFrom(outbox, session, lastId, limit - |ids|, i)
               == OutboxSinceFrom(outbox, session, lastId, limit, 0)
      {
        if i + 1 > lastId && outbox[i].session == session {
          assert ids + ([i + 1] + OutboxSinceFrom(outbox, session, lastId, limit - |ids| - 1, i + 1))
              == ids + [i + 1] + OutboxSinceFrom(outbox, session, lastId, limit - |ids| - 1, i + 1);
          ids := ids + [i + 1];
        }
        i := i + 1;
      }
    }
  }

  lemma {:induction false} HeadOfPrefix(rows: seq<InboundRow>, session: string, i: nat)
    requires i <= |rows|
    requires i == |rows| || HeadId(rows[..i], session) != 0
    ensures HeadId(rows, session) == HeadId(rows[..i], session)
  {
    if i == |rows| {
      assert rows[..i] == rows;
    } else {
      HeadIsUnique(rows, session, HeadId(rows[..i], session));
    }
  }

  lemma HeadIsUnique(rows: seq<InboundRow>, session: string, id: nat)
    requires 1 <= id <= |rows| && rows[id - 1].session == session && rows[id - 1].Active()
    requires forall i :: 0 <= i < id - 1 ==> !(rows[i].session == session && rows[i].Active())
    ensures HeadId(rows, session) == id
  {
  }

  // ---------- what a poll of the outbox returns ----------

  /** Polled ids are new, of the session, in order, and leave no gap below the last one; a poll that did not fill up
      left nothing behind. */
  ghost predicate ExactPoll(outbox: seq<OutboxRow>, session: string, lastId: nat, limit: nat, from: nat, r: seq<nat>) {
    && (forall k :: 0 <= k < |r| ==> from < r[k] <= |outbox| && Wanted(outbox, session, lastId, r[k]))
    && (forall k, l :: 0 <= k < l < |r| ==> r[k] < r[l])
    && (forall id | from < id && Wanted(outbox, session, lastId, id) && Covers(r, limit, id) :: id in r)
  }

  predicate Wanted(outbox: seq<OutboxRow>, session: string, lastId: nat, id: nat) {
    lastId < id <= |outbox| && outbox[id - 1].session == session
  }

  /** A poll speaks about every id if it did not reach its limit, and about the ids up to its last one if it did. */
  predicate Covers(r: seq<nat>, limit: nat, id: nat) {
    |r| < limit || (r != [] && id <= r[|r| - 1])
  }

  lemma PollSkips(outbox: seq<OutboxRow>, session: string, lastId: nat, limit: nat, from: nat, r: seq<nat>)
    requires ExactPoll(outbox, session, lastId, limit, from + 1, r) && !Wanted(outbox, session, lastId, from + 1)
    ensures ExactPoll(outbox, session, lastId, limit, from, r)
  {
  }

  lemma PollEnds(outbox: seq<OutboxRow>, session: string, lastId: nat, limit: nat, from: nat)
    requires from >= |outbox| || limit == 0
    ensures ExactPoll(outbox, session, lastId, limit, from, [])
  {
  }

  lemma PollTakes(outbox: seq<OutboxRow>, session: string, lastId: nat, limit: nat, from: nat, rest: seq<nat>)
    requires ExactPoll(outbox, session, lastId, limit, from + 1, rest) && Wanted(outbox, session, lastId, from + 1)
    ensures ExactPoll(outbox, session, lastId, limit + 1, from, [from + 1] + rest)
  {
  }

  lemma {:induction false} PollIsExact(outbox: seq<OutboxRow>, session: string, lastId: nat, limit: nat, from: nat)
    ensures ExactPoll(outbox, session, lastId, limit, from, OutboxSinceFrom(outbox, session, lastId, limit, from))
    decreases |outbox| - from
  {
    hide ExactPoll;
    if from < |outbox| && limit > 0 {
      if from + 1 > lastId && outbox[from].session == session {
        var rest := OutboxSinceFrom(outbox, session, lastId, limit - 1, from + 1);
        PollIsExact(outbox, session, lastId, limit - 1, from + 1);
        PollTakes(outbox, session, lastId, limit - 1, from, rest);
      } else {
        var rest := OutboxSinceFrom(outbox, session, lastId, limit, from + 1);
        PollIsExact(outbox, session, lastId, limit, from + 1);
        PollSkips(outbox, session, lastId, limit, from, rest);
      }
    } else {
      PollEnds(outbox, session, lastId, limit, from);
    }
  }
}
