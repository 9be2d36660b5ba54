/** One pump working through a session's queue: CompleteOne, and the loop around it. */
module GatewayPump {
  import opened Wrappers
  import opened GatewayState
  import GoStrings
  import TimeText
  import JC = JobCompleter
  import P = GatewayProtocol
  import Timing = GatewayTiming
  import Messages = GatewayMessages

  const MAX_PUMP_LIMIT: nat := 200

  datatype JobOutcome = JobOutcome(claimed: bool, jobId: nat, attempt: nat)

  /** What the outside world contributes to one round: clock readings and the handler's outcome. */
  datatype Round = Round(claimNow: nat, outcome: JC.Handled, doneNow: nat)

  /** The write that follows handling a claimed row. */
  function WriteOutcome(t: Tables, session: string, job: ClaimedRow, outcome: JC.Handled, now: nat): Tables {
    match JC.Decide(outcome, job.attempt)
    case Nothing => t
    case Complete(reply) => TxFinish(t, session, job.channel, reply, job.id, job.attempt, now, None).0
    case Retry(cause, delay) => TxRetry(t, job.id, job.attempt, cause, now + delay).0
    case Fail(cause) =>
      TxFinish(t, session, job.channel, JC.FailureReply(job.id, cause), job.id, job.attempt, now, Some(cause)).0
  }

  function CompleteOneTx(t: Tables, session: string, round: Round): (Tables, JobOutcome) {
    var (t', id) := TxClaim(t, session, round.claimNow, JC.INBOUND_LEASE);
    if id == 0 then (t', JobOutcome(false, 0, 0))
    else
      var job := TxRead(t', id).value;
      (WriteOutcome(t', session, job, round.outcome, round.doneNow), JobOutcome(true, id, job.attempt))
  }

  method CompleteOne(db: State, session: string, round: Round) returns (outcome: JobOutcome)
    modifies db
    ensures (db.Snapshot(), outcome) == CompleteOneTx(old(db.Snapshot()), session, round)
  {
    hide TimeText.Format, GoStrings.TrimSpace, TxClaim, TxFinish, TxRetry, JC.FailureReply, JC.RetryBackoff;
    var row := db.ClaimDueInbound(session, round.claimNow, JC.INBOUND_LEASE);
    if row.None? {
      return JobOutcome(false, 0, 0);
    }
    var job := row.value;
    outcome := JobOutcome(true, job.id, job.attempt);
    match round.outcome {
      case Success(reply) =>
        var _, _ := db.CompleteInboundSuccess(session, job.channel, reply, job.id, job.attempt, round.doneNow);
      case LeaseLost =>
      case Failure(cause, retryable) =>
        if JC.MayRetry(retryable, job.attempt, JC.MAX_ATTEMPTS) {
          var delay := JC.RetryBackoff(job.attempt);
          var _ := db.MarkInboundRetry(job.id, job.attempt, cause, round.doneNow + delay);
        } else {
          var reply := JC.FailureReply(job.id, cause);
          var _, _ := db.CompleteInboundFailure(session, job.channel, reply, job.id, job.attempt, round.doneNow, cause);
        }
    }
  }

  /** CompleteOne without interference is four steps of the protocol. */
  lemma CompleteOneIsFourSteps(s: P.Sys, w: nat, round: Round)
    requires w in s.workers && s.workers[w].phase == P.Ready
    ensures var s1 := P.Apply(s, P.ClaimStep(w, round.claimNow));
            var s2 := P.Apply(s1, P.ReadStep(w));
            var s3 := P.Apply(s2, P.HandledStep(w, round.outcome));
            var s4 := P.Apply(s3, P.WriteStep(w, round.doneNow));
            s4.db == CompleteOneTx(s.db, s.workers[w].session, round).0
  {
    hide TimeText.Format, GoStrings.TrimSpace, HeadId;
    var session := s.workers[w].session;
    var (t, id) := TxClaim(s.db, session, round.claimNow, JC.INBOUND_LEASE);
    var s1 := P.Apply(s, P.ClaimStep(w, round.claimNow));
    if id != 0 {
      var row := TxRead(t, id).value;
      var s2 := P.Apply(s1, P.ReadStep(w));
      assert s2.db == t && s2.workers[w] == P.Worker(session, P.Handling(row, false));
      var s3 := P.Apply(s2, P.HandledStep(w, round.outcome));
      assert s3.db == t && s3.workers[w] == P.Worker(session, P.Deciding(row, JC.Decide(round.outcome, row.attempt)));
    }
  }

  /** What a message's sender sees of one round, for every outcome of the handler. */
  lemma RoundAnswersTheHead(t: Tables, session: string, round: Round)
    requires P.InvDb(t)
    ensures var (t', done) := CompleteOneTx(t, session, round);
            var id := HeadId(t.inbound, session);
            && (!done.claimed ==> t' == t)
            && (done.claimed ==>
                  && done.jobId == id != 0 && t'.Has(id)
                  && done.attempt == t.Row(id).attempts + 1 == t'.Row(id).attempts
                  && t'.Row(id).session == session && t.outbox <= t'.outbox
                  && (round.outcome.Success? ==>
                        && t'.Row(id).status == Done
                        && t'.outbox == t.outbox + [OutboxRow(session, t.Row(id).channel, round.outcome.reply, id,
                                                              TimeText.Format(round.doneNow))])
                  && (round.outcome.Failure? && round.outcome.retryable && done.attempt <= 2 ==>
                        t'.Row(id).status == Pending && t'.outbox == t.outbox)
                  && (round.outcome.Failure? && !(round.outcome.retryable && done.attempt <= 2) ==>
                        && t'.Row(id).status == Failed && |t'.outbox| == |t.outbox| + 1
                        && t'.outbox[|t.outbox|].inReplyTo == id)
                  && (round.outcome.LeaseLost? ==> t'.Row(id).status == Processing && t'.outbox == t.outbox))
            && forall other :: t.Has(other) && other != id ==> t'.Has(other) && t'.Row(other) == t.Row(other)
  {
    hide TimeText.Format, JC.FailureReply, HeadId, Claimable, LeaseText, P.EarlierDone;
    P.ClaimTakesHead(t, session, round.claimNow, JC.INBOUND_LEASE);
    var id := HeadId(t.inbound, session);
    if id != 0 {
      assert P.RowOk(t.Row(id));
    }
  }

  /** The row says when it was finished, why it failed, and when it may be retried: one second after the first failed
      attempt, two after the second. */
  ghost predicate Recorded(row: InboundRow, round: Round, attempt: nat) {
    && (row.Terminal() ==> row.processedAt == Some(TimeText.Format(round.doneNow)))
    && (round.outcome.Failure? ==> row.errorText == Some(GoStrings.TrimSpace(round.outcome.cause)))
    && (row.status == Pending ==>
          row.nextAttemptAt == Some(TimeText.Format(round.doneNow + attempt * Timing.SECOND)))
  }

  /** What a failed round leaves behind, besides what RoundAnswersTheHead says of it: the reason in the row, and for the
      sender a reply on the message's own channel that names the message and gives the reason. */
  lemma RoundRecordsTheOutcome(t: Tables, session: string, round: Round)
    requires P.InvDb(t) && CompleteOneTx(t, session, round).1.claimed
    ensures var (t', done) := CompleteOneTx(t, session, round);
            var id := HeadId(t.inbound, session);
            && t'.Has(id) && t.Has(id)
            && (!round.outcome.LeaseLost? ==> Recorded(t'.Row(id), round, done.attempt))
            && (round.outcome.Failure? && |t'.outbox| > |t.outbox| ==>
                  var reply := t'.outbox[|t.outbox|];
                  && reply == OutboxRow(session, t.Row(id).channel, reply.text, id, TimeText.Format(round.doneNow))
                  && Messages.TellsFailure(reply.text, id, round.outcome.cause))
  {
    hide TimeText.Format, GoStrings.TrimSpace, JC.FailureReply, HeadId, Claimable, LeaseText, Messages.TellsFailure;
    var id := HeadId(t.inbound, session);
    if round.outcome.Failure? {
      Messages.FailureIsTold(id, round.outcome.cause);
    }
    assert P.RowOk(t.Row(id)) && GoStrings.TrimSpace(t.Row(id).channel) == t.Row(id).channel;
    hide P.InvDb;
  }

  // ---------- the loop ----------

  function ClampLimit(limit: int): nat {
    if limit <= 0 then 1 else if limit > MAX_PUMP_LIMIT then MAX_PUMP_LIMIT else limit
  }

  datatype Pumped = Pumped(db: Tables, processed: nat, lastInboundId: nat)

  function PumpTx(t: Tables, session: string, rounds: nat -> Round, from: nat, budget: nat): Pumped
    decreases budget
  {
    if budget == 0 then Pumped(t, 0, 0)
    else
      var (t', done) := CompleteOneTx(t, session, rounds(from));
      if !done.claimed then Pumped(t', 0, 0)
      else After(done, PumpTx(t', session, rounds, from + 1, budget - 1))
  }

  /** A round that claimed something, and then the rest. */
  function After(done: JobOutcome, rest: Pumped): Pumped {
    Pumped(rest.db, rest.processed + 1, if rest.processed == 0 then done.jobId else rest.lastInboundId)
  }

  method RunPump(db: State, session: string, limit: int, rounds: nat -> Round)
    returns (processed: nat, lastInboundId: nat)
    modifies db
    ensures Pumped(db.Snapshot(), processed, lastInboundId)
         == PumpTx(old(db.Snapshot()), session, rounds, 0, ClampLimit(limit))
  {
    hide CompleteOneTx;
    var cap := limit;
    if cap <= 0 {
      cap := 1;
    }
    if cap > MAX_PUMP_LIMIT {
      cap := MAX_PUMP_LIMIT;
    }
    processed, lastInboundId := 0, 0;
    ghost var start := db.Snapshot();
    while processed < cap
      invariant processed <= cap
      invariant var rest := PumpTx(db.Snapshot(), session, rounds, processed, cap - processed);
                PumpTx(start, session, rounds, 0, cap) ==
                Pumped(rest.db, processed + rest.processed,
                       if rest.processed == 0 then lastInboundId else rest.lastInboundId)
    {
      var outcome := CompleteOne(db, session, rounds(processed));
      if !outcome.claimed {
        break;
      }
      processed := processed + 1;
      lastInboundId := outcome.jobId;
    }
  }

  /** Ids of a session's unfinished messages, in order of arrival. */
  function Waiting(rows: seq<InboundRow>, session: string): seq<nat> {
    if rows == [] then []
    else
      var last := |rows| - 1;
      Waiting(rows[..last], session)
      + (if rows[last].session == session && rows[last].Active() then [last + 1] else [])
  }

  lemma {:induction false} HeadIsFirstWaiting(rows: seq<InboundRow>, session: string)
    ensures HeadId(rows, session) == (if Waiting(rows, session) == [] then 0 else Waiting(rows, session)[0])
    ensures Waiting(rows, session) != [] ==> Waiting(rows, session)[0] > 0
  {
    if rows != [] {
      var earlier := Waiting(rows[..|rows| - 1], session);
      HeadIsFirstWaiting(rows[..|rows| - 1], session);
      assert earlier != [] ==> Waiting(rows, session)[0] == earlier[0];
      assert earlier == [] ==> Waiting(rows, session) == [] || Waiting(rows, session) == [|rows|];
    }
  }

  lemma WaitingUnrolls(rows: seq<InboundRow>, session: string)
    requires rows != []
    ensures var last := |rows| - 1;
            Waiting(rows, session) ==
            Waiting(rows[..last], session)
            + (if rows[last].session == session && rows[last].Active() then [last + 1] else [])
  {
  }

  lemma {:induction false} FinishingTheHead(rows: seq<InboundRow>, session: string, row: InboundRow)
    requires HeadId(rows, session) != 0 && row.Terminal()
    ensures Waiting(rows, session) != []
    ensures Waiting(rows[HeadId(rows, session) - 1 := row], session) == Waiting(rows, session)[1..]
  {
    hide HeadId, Waiting;
    var (last, id) := (|rows| - 1, HeadId(rows, session));
    var (front, changed) := (rows[..last], rows[id - 1 := row]);
    HeadIsFirstWaiting(rows, session);
    HeadIsFirstWaiting(front, session);
    WaitingUnrolls(rows, session);
    WaitingUnrolls(changed, session);
    if id == |rows| {
      assert changed[..last] == front;
    } else {
      assert changed[..last] == front[id - 1 := row];
      FinishingTheHead(front, session, row);
    }
  }

  function AnsweredIds(outbox: seq<OutboxRow>): seq<nat> {
    seq(|outbox|, i requires 0 <= i < |outbox| => outbox[i].inReplyTo)
  }

  lemma {:induction false} KeepingTheHead(rows: seq<InboundRow>, session: string, id: nat, row: InboundRow)
    requires 1 <= id <= |rows| && rows[id - 1].session == row.session && rows[id - 1].Active() && row.Active()
    ensures Waiting(rows[id - 1 := row], session) == Waiting(rows, session)
  {
    var (last, changed) := (|rows| - 1, rows[id - 1 := row]);
    var front := rows[..last];
    if id == |rows| {
      assert changed[..last] == front;
    } else {
      assert changed[..last] == front[id - 1 := row];
      KeepingTheHead(front, session, id, row);
    }
  }

  /** The round finishes a message that has been tried `attempts` times before. */
  predicate Finishes(round: Round, attempts: nat) {
    match round.outcome
    case Success(_) => true
    case LeaseLost => false
    case Failure(_, retryable) => !retryable || attempts + 1 >= 3
  }

  lemma RoundKeepsDb(t: Tables, session: string, round: Round)
    requires P.InvDb(t)
    ensures P.InvDb(CompleteOneTx(t, session, round).0)
    ensures |CompleteOneTx(t, session, round).0.inbound| == |t.inbound|
  {
    hide TimeText.Format, GoStrings.TrimSpace, JC.FailureReply, P.InvDb, HeadId, Claimable;
    var (t', id) := TxClaim(t, session, round.claimNow, JC.INBOUND_LEASE);
    P.ClaimTakesHead(t, session, round.claimNow, JC.INBOUND_LEASE);
    if id != 0 {
      P.ClaimKeepsDb(t, t', session, id);
      var job := TxRead(t', id).value;
      match JC.Decide(round.outcome, job.attempt)
      case Nothing =>
      case Complete(reply) =>
        P.FinishKeepsDb(t', session, job.channel, reply, id, job.attempt, round.doneNow, None);
      case Retry(cause, delay) => P.RetryKeepsDb(t', id, job.attempt, cause, round.doneNow + delay);
      case Fail(cause) =>
        P.FinishKeepsDb(t', session, job.channel, JC.FailureReply(id, cause), id, job.attempt, round.doneNow,
                        Some(cause));
    }
  }

  lemma OneRowChanges(t: Tables, t': Tables, id: nat)
    requires t.Has(id) && |t'.inbound| == |t.inbound|
    requires forall other :: t.Has(other) && other != id ==> t'.Has(other) && t'.Row(other) == t.Row(other)
    ensures t'.inbound == t.inbound[id - 1 := t'.Row(id)]
  {
    forall i | 0 <= i < |t.inbound| && i != id - 1 ensures t'.inbound[i] == t.inbound[i] {
      assert t.Has(i + 1);
    }
  }

  /** A round that finishes the head answers it and takes it off the queue; any other leaves queue and answers alone. */
  lemma RoundMovesTheQueue(t: Tables, session: string, round: Round)
    requires P.InvDb(t)
    ensures var (t', done) := CompleteOneTx(t, session, round);
            var id := HeadId(t.inbound, session);
            && (!done.claimed ==> t' == t)
            && (done.claimed ==>
                  && P.InvDb(t') && id != 0 && Waiting(t.inbound, session) != []
                  && if Finishes(round, t.Row(id).attempts) then
                       && AnsweredIds(t'.outbox) == AnsweredIds(t.outbox) + [id]
                       && Waiting(t'.inbound, session) == Waiting(t.inbound, session)[1..]
                     else
                       && AnsweredIds(t'.outbox) == AnsweredIds(t.outbox)
                       && Waiting(t'.inbound, session) == Waiting(t.inbound, session))
  {
    hide CompleteOneTx, P.InvDb, HeadId, Waiting;
    var (t', done) := CompleteOneTx(t, session, round);
    RoundAnswersTheHead(t, session, round);
    RoundKeepsDb(t, session, round);
    if done.claimed {
      var id := done.jobId;
      HeadIsFirstWaiting(t.inbound, session);
      OneRowChanges(t, t', id);
      if Finishes(round, t.Row(id).attempts) {
        FinishingTheHead(t.inbound, session, t'.Row(id));
        assert t'.outbox == t.outbox + [t'.outbox[|t.outbox|]];
      } else {
        KeepingTheHead(t.inbound, session, id, t'.Row(id));
      }
    }
  }

  // ---------- what a pump answers ----------

  ghost predicate AllSucceed(rounds: nat -> Round) {
    forall k: nat :: rounds(k).outcome.Success?
  }

  ghost predicate NoLeaseLost(rounds: nat -> Round) {
    forall k: nat :: !rounds(k).outcome.LeaseLost?
  }

  /** Every waiting message can be claimed in every round. */
  ghost predicate AllClaimable(t: Tables, session: string, rounds: nat -> Round) {
    forall id, k: nat :: id in Waiting(t.inbound, session) && t.Has(id) ==> Claimable(t.Row(id), rounds(k).claimNow)
  }

  /** The number of messages a pump has answered. */
  function Answered(t: Tables, after: Pumped): int {
    |after.db.outbox| - |t.outbox|
  }

  /** The first n waiting messages have been answered, one reply each, in order, and the others still wait. */
  ghost predicate FirstAnswered(t: Tables, t': Tables, session: string, n: int) {
    && 0 <= n <= |Waiting(t.inbound, session)|
    && AnsweredIds(t'.outbox) == AnsweredIds(t.outbox) + Waiting(t.inbound, session)[..n]
    && Waiting(t'.inbound, session) == Waiting(t.inbound, session)[n..]
  }

  /** Whatever its handler does, a pump answers the first messages of the queue, one each, in order of arrival.  If the
      handler always succeeds that is one message per round, and all there is a budget for if they can be claimed. */
  lemma {:induction false} PumpAnswersInOrder(t: Tables, session: string, rounds: nat -> Round, from: nat, budget: nat)
    requires P.InvDb(t)
    ensures var after := PumpTx(t, session, rounds, from, budget);
            var n := Answered(t, after);
            && FirstAnswered(t, after.db, session, n) && n <= after.processed <= budget
            && (AllSucceed(rounds) ==> n == after.processed)
            && (AllSucceed(rounds) && AllClaimable(t, session, rounds) ==>
                  after.processed == budget || after.processed == |Waiting(t.inbound, session)|)
    decreases budget
  {
    hide CompleteOneTx, P.InvDb, AnsweredIds, Waiting, AllClaimable, Finishes, FirstAnswered;
    NothingAnswered(t, session);
    if budget > 0 {
      var (t1, done) := CompleteOneTx(t, session, rounds(from));
      RoundMovesTheQueue(t, session, rounds(from));
      HeadIsFirstWaiting(t.inbound, session);
      var all := AllSucceed(rounds) && AllClaimable(t, session, rounds);
      if all && Waiting(t.inbound, session) != [] {
        HeadIsClaimed(t, session, rounds, from);
      }
      if done.claimed {
        PumpAnswersInOrder(t1, session, rounds, from + 1, budget - 1);
        OneMoreRound(t, t1, PumpTx(t1, session, rounds, from + 1, budget - 1).db, session, rounds(from));
        if all {
          RestIsClaimable(t, t1, session, rounds, from);
        }
      }
    }
  }

  lemma NothingAnswered(t: Tables, session: string)
    ensures FirstAnswered(t, t, session, 0)
  {
  }

  lemma OneMoreRound(t: Tables, t1: Tables, t2: Tables, session: string, round: Round)
    requires P.InvDb(t) && t1 == CompleteOneTx(t, session, round).0 && CompleteOneTx(t, session, round).1.claimed
    requires FirstAnswered(t1, t2, session, |t2.outbox| - |t1.outbox|)
    ensures FirstAnswered(t, t2, session, |t2.outbox| - |t.outbox|)
    ensures |t1.outbox| == |t.outbox| + if Finishes(round, t.Row(HeadId(t.inbound, session)).attempts) then 1 else 0
    ensures round.outcome.Success? ==>
              |t1.outbox| == |t.outbox| + 1 && Waiting(t1.inbound, session) == Waiting(t.inbound, session)[1..]
  {
    hide CompleteOneTx, P.InvDb, Waiting, HeadId;
    RoundMovesTheQueue(t, session, round);
    HeadIsFirstWaiting(t.inbound, session);
    assert |AnsweredIds(t1.outbox)| == |t1.outbox| && |AnsweredIds(t.outbox)| == |t.outbox|;
    if Finishes(round, t.Row(HeadId(t.inbound, session)).attempts) {
      TakeFirst(AnsweredIds(t.outbox), Waiting(t.inbound, session), |t2.outbox| - |t1.outbox|);
    }
  }

  lemma TakeFirst(done: seq<nat>, waiting: seq<nat>, p: nat)
    requires p < |waiting|
    ensures done + [waiting[0]] + waiting[1..][..p] == done + waiting[..p + 1]
    ensures waiting[1..][p..] == waiting[p + 1..]
  {
  }

  lemma HeadIsClaimed(t: Tables, session: string, rounds: nat -> Round, k: nat)
    requires AllClaimable(t, session, rounds) && Waiting(t.inbound, session) != []
    ensures CompleteOneTx(t, session, rounds(k)).1.claimed
  {
    hide HeadId, Waiting, Claimable, WriteOutcome, LeaseText;
    HeadIsFirstWaiting(t.inbound, session);
  }

  lemma RestIsClaimable(t: Tables, t': Tables, session: string, rounds: nat -> Round, k: nat)
    requires P.InvDb(t) && AllClaimable(t, session, rounds) && rounds(k).outcome.Success?
    requires t' == CompleteOneTx(t, session, rounds(k)).0 && CompleteOneTx(t, session, rounds(k)).1.claimed
    ensures AllClaimable(t', session, rounds)
  {
    hide CompleteOneTx, P.InvDb, Waiting, Claimable, HeadId;
    RoundAnswersTheHead(t, session, rounds(k));
    RoundMovesTheQueue(t, session, rounds(k));
    var (waiting, rest) := (Waiting(t.inbound, session), Waiting(t'.inbound, session));
    HeadIsFirstWaiting(t.inbound, session);
    WaitingIncreases(t.inbound, session);
    forall id, j: nat | id in rest && t'.Has(id) ensures Claimable(t'.Row(id), rounds(j).claimNow) {
      var i :| 0 <= i < |rest| && rest[i] == id;
      assert waiting[i + 1] == id && waiting[0] < waiting[i + 1];
    }
  }

  predicate IncreasingUpTo(ids: seq<nat>, last: nat) {
    && (forall i :: 0 <= i < |ids| ==> 1 <= ids[i] <= last)
    && (forall i, j :: 0 <= i < j < |ids| ==> ids[i] < ids[j])
  }

  lemma {:induction false} WaitingIncreases(rows: seq<InboundRow>, session: string)
    ensures IncreasingUpTo(Waiting(rows, session), |rows|)
  {
    if rows != [] {
      WaitingIncreases(rows[..|rows| - 1], session);
    }
  }

  /** In particular: a queue whose messages all fell due a second before the first claim is emptied as far as the budget
      goes. */
  lemma PumpEmptiesTheQueue(t: Tables, session: string, rounds: nat -> Round, limit: int, due: nat -> nat)
    requires P.InvDb(t) && AllSucceed(rounds)
    requires forall id :: id in Waiting(t.inbound, session) && t.Has(id) ==>
               Timing.WaitsFor(t.Row(id), due(id)) && TimeText.FourDigitYear(due(id))
    requires forall id, k: nat :: id in Waiting(t.inbound, session) ==>
               TimeText.FourDigitYear(rounds(k).claimNow) && due(id) + Timing.SECOND <= rounds(k).claimNow
    ensures var waiting := |Waiting(t.inbound, session)|;
            var after := PumpTx(t, session, rounds, 0, ClampLimit(limit));
            && (1 <= limit <= 200 ==> after.processed == if limit < waiting then limit else waiting)
            && (limit > 200 ==> after.processed == if 200 < waiting then 200 else waiting)
            && (limit < 1 ==> after.processed == if 1 < waiting then 1 else waiting)
            && FirstAnswered(t, after.db, session, after.processed)
  {
    hide P.InvDb, PumpTx, Waiting, TimeText.FourDigitYear, TimeText.Format, TimeText.TextLE;
    forall id, k: nat | id in Waiting(t.inbound, session) && t.Has(id)
      ensures Claimable(t.Row(id), rounds(k).claimNow)
    {
      TimeText.DueByTextWithinASecond(due(id), rounds(k).claimNow);
    }
    PumpAnswersInOrder(t, session, rounds, 0, ClampLimit(limit));
  }

  /** `last` is the n-th of the waiting messages or the one after it, or 0 if nothing was processed. */
  predicate NamesLast(waiting: seq<nat>, n: int, processed: nat, last: nat) {
    && (processed == 0 <==> last == 0) && 0 <= n <= |waiting| && (processed == 0 ==> n == 0)
    && (processed > 0 ==> (n > 0 && last == waiting[n - 1]) || (n < |waiting| && last == waiting[n]))
  }

  lemma RoundNamesLast(waiting: seq<nat>, finished: bool, n: int, processed: nat, last: nat)
    requires waiting != [] && waiting[0] > 0
    requires NamesLast(if finished then waiting[1..] else waiting, n, processed, last)
    ensures NamesLast(waiting, if finished then n + 1 else n, processed + 1,
                      if processed == 0 then waiting[0] else last)
  {
  }

  /** The id that a pump reports last is that of the last message it answered, or of the one it was still trying. */
  lemma {:induction false} LastInboundId(t: Tables, session: string, rounds: nat -> Round, from: nat, budget: nat)
    requires P.InvDb(t)
    ensures var after := PumpTx(t, session, rounds, from, budget);
            NamesLast(Waiting(t.inbound, session), Answered(t, after), after.processed, after.lastInboundId)
    decreases budget
  {
    hide CompleteOneTx, P.InvDb, AnsweredIds, Waiting, Finishes, HeadId, NamesLast;
    NothingNamed(Waiting(t.inbound, session));
    if budget > 0 {
      var (t1, done) := CompleteOneTx(t, session, rounds(from));
      RoundMovesTheQueue(t, session, rounds(from));
      if done.claimed {
        RoundNamesItsHead(t, session, rounds(from));
        var rest := PumpTx(t1, session, rounds, from + 1, budget - 1);
        LastInboundId(t1, session, rounds, from + 1, budget - 1);
        RoundNamesLast(Waiting(t.inbound, session), Finishes(rounds(from), t.Row(done.jobId).attempts),
                       Answered(t1, rest), rest.processed, rest.lastInboundId);
      }
    }
  }

  lemma NothingNamed(waiting: seq<nat>)
    ensures NamesLast(waiting, 0, 0, 0)
  {
  }

  lemma RoundNamesItsHead(t: Tables, session: string, round: Round)
    requires P.InvDb(t) && CompleteOneTx(t, session, round).1.claimed
    ensures var (t', done) := CompleteOneTx(t, session, round);
            && done.jobId == HeadId(t.inbound, session) != 0 && t.Has(done.jobId)
            && Waiting(t.inbound, session) != [] && Waiting(t.inbound, session)[0] == done.jobId
            && |t'.outbox| == |t.outbox| + if Finishes(round, t.Row(done.jobId).attempts) then 1 else 0
  {
    hide CompleteOneTx, P.InvDb, Waiting, Finishes;
    RoundMovesTheQueue(t, session, round);
    RoundAnswersTheHead(t, session, round);
    HeadIsFirstWaiting(t.inbound, session);
    assert |AnsweredIds(t.outbox)| == |t.outbox|;
    assert |AnsweredIds(CompleteOneTx(t, session, round).0.outbox)| == |CompleteOneTx(t, session, round).0.outbox|;
  }

  // ---------- a new message ----------

  /** A message that is received joins its session's queue at the end; if nothing else waits it can be claimed from its
      receipt on, give or take a second. */
  lemma NewMessageWaitsLast(t: Tables, session: string, channel: string, text: string, input: string, at: nat, now: nat)
    requires TimeText.FourDigitYear(at) && TimeText.FourDigitYear(now)
    ensures var (t', id) := (TxInsert(t, session, channel, text, input, at), |t.inbound| + 1);
            && Waiting(t'.inbound, session) == Waiting(t.inbound, session) + [id]
            && (forall other :: other != session ==> Waiting(t'.inbound, other) == Waiting(t.inbound, other))
            && (Waiting(t.inbound, session) == [] ==>
                  HeadId(t'.inbound, session) == id && Timing.ClaimsOnTime(t', session, at, now, JC.INBOUND_LEASE))
  {
    hide TimeText.Format, TimeText.FourDigitYear, GoStrings.TrimSpace, Timing.ClaimsOnTime, HeadId;
    var t' := TxInsert(t, session, channel, text, input, at);
    assert t'.inbound[..|t.inbound|] == t.inbound;
    HeadIsFirstWaiting(t'.inbound, session);
    if Waiting(t.inbound, session) == [] {
      Timing.ClaimTiming(t', session, at, now, JC.INBOUND_LEASE);
    }
  }

  // ---------- three rounds a message ----------

  /** How often the head has been tried, as far as it matters. */
  function Tried(t: Tables, session: string): nat {
    var id := HeadId(t.inbound, session);
    if id == 0 then 0 else if t.Row(id).attempts > 2 then 2 else t.Row(id).attempts
  }

  /** As long as no lease is lost a message takes at most three rounds: however the handler fares, the number of rounds
      is at most three for each answer, and two for a message that is still being retried. */
  lemma {:induction false} PumpTakesThreeRoundsAMessage(t: Tables, session: string, rounds: nat -> Round, from: nat,
                                                        budget: nat)
    requires P.InvDb(t) && NoLeaseLost(rounds)
    ensures var after := PumpTx(t, session, rounds, from, budget);
            after.processed + Tried(t, session) <= 3 * Answered(t, after) + 2
    decreases budget
  {
    hide CompleteOneTx, P.InvDb, AnsweredIds, Waiting, FirstAnswered, Tried, Finishes, HeadId;
    TriedAtMostTwice(t, session);
    if budget > 0 {
      var (t1, done) := CompleteOneTx(t, session, rounds(from));
      RoundMovesTheQueue(t, session, rounds(from));
      if done.claimed {
        PumpTakesThreeRoundsAMessage(t1, session, rounds, from + 1, budget - 1);
        PumpAnswersInOrder(t1, session, rounds, from + 1, budget - 1);
        OneMoreRound(t, t1, PumpTx(t1, session, rounds, from + 1, budget - 1).db, session, rounds(from));
        RoundUsesAnAttempt(t, t1, session, rounds(from));
      }
    }
  }

  lemma TriedAtMostTwice(t: Tables, session: string)
    ensures Tried(t, session) <= 2
  {
  }

  lemma RoundUsesAnAttempt(t: Tables, t': Tables, session: string, round: Round)
    requires P.InvDb(t) && !round.outcome.LeaseLost?
    requires t' == CompleteOneTx(t, session, round).0 && CompleteOneTx(t, session, round).1.claimed
    ensures HeadId(t.inbound, session) != 0
    ensures if Finishes(round, t.Row(HeadId(t.inbound, session)).attempts) then Tried(t', session) == 0
            else Tried(t', session) == Tried(t, session) + 1
  {
    hide CompleteOneTx, Waiting, HeadId, AnsweredIds, P.InvDb, Tried, Finishes;
    RoundMovesTheQueue(t, session, round);
    if Finishes(round, t.Row(HeadId(t.inbound, session)).attempts) {
      FinishStartsAfresh(t, t', session, round);
    } else {
      RetryCountsUp(t, t', session, round);
    }
  }

  lemma RetryCountsUp(t: Tables, t': Tables, session: string, round: Round)
    requires P.InvDb(t) && !round.outcome.LeaseLost?
    requires t' == CompleteOneTx(t, session, round).0 && CompleteOneTx(t, session, round).1.claimed
    requires HeadId(t.inbound, session) != 0 && !Finishes(round, t.Row(HeadId(t.inbound, session)).attempts)
    ensures Tried(t', session) == Tried(t, session) + 1
  {
    hide CompleteOneTx, Waiting, HeadId, AnsweredIds, P.InvDb;
    RoundAnswersTheHead(t, session, round);
    RoundMovesTheQueue(t, session, round);
    HeadIsFirstWaiting(t.inbound, session);
    HeadIsFirstWaiting(t'.inbound, session);
  }

  lemma FinishStartsAfresh(t: Tables, t': Tables, session: string, round: Round)
    requires P.InvDb(t) && HeadId(t.inbound, session) != 0
    requires t' == CompleteOneTx(t, session, round).0 && CompleteOneTx(t, session, round).1.claimed
    requires Finishes(round, t.Row(HeadId(t.inbound, session)).attempts)
    ensures Tried(t', session) == 0
  {
    hide CompleteOneTx, HeadId, P.InvDb, Tried;
    RoundAnswersTheHead(t, session, round);
    RoundKeepsDb(t, session, round);
    OneRowChanges(t, t', HeadId(t.inbound, session));
    NextHeadIsFresh(t, t', session);
  }

  /** Behind the head of a queue nothing has been tried yet. */
  lemma NextHeadIsFresh(t: Tables, t': Tables, session: string)
    requires P.InvDb(t) && HeadId(t.inbound, session) != 0 && t'.Has(HeadId(t.inbound, session))
    requires t'.Row(HeadId(t.inbound, session)).Terminal()
    requires t'.inbound == t.inbound[HeadId(t.inbound, session) - 1 := t'.Row(HeadId(t.inbound, session))]
    ensures Tried(t', session) == 0
  {
    hide HeadId, P.InvDb;
    var (id, next) := (HeadId(t.inbound, session), HeadId(t'.inbound, session));
    if next != 0 {
      assert t'.inbound[next - 1] == t.inbound[next - 1];
      UntouchedBehind(t, id, next);
    }
  }

  lemma UntouchedBehind(t: Tables, id: nat, next: nat)
    requires P.InvDb(t) && 1 <= id < next <= |t.inbound|
    requires t.Row(id).Active() && t.Row(id).session == t.Row(next).session
    ensures !P.Touched(t.Row(next))
  {
    assert t.inbound[id - 1].Active();
  }
}
