/** From a message to its reply: what is received is what is handled, and what the handler says is what is replied. */
module GatewayMessages {
  import opened Wrappers
  import opened GatewayState
  import opened GatewayProtocol
  import GoStrings
  import JC = JobCompleter
  import TimeText

  // ---------- messages stay as they were received ----------

  /** What a row or a claimed row says about its message. */
  datatype Content = Content(session: string, channel: string, text: string, input: string, receivedAt: string)

  function ContentOf(row: InboundRow): Content {
    Content(row.session, row.channel, row.text, row.input, row.receivedAt)
  }

  function Handed(job: ClaimedRow): Content {
    Content(job.session, job.channel, job.text, job.input, job.receivedAt)
  }

  lemma WriteKeepsContent(t: Tables, session: string, channel: string, text: string, id: nat, attempt: nat, at: nat,
                          failure: Option<string>, other: nat)
    requires t.Has(other)
    ensures var t' := TxFinish(t, session, channel, text, id, attempt, at, failure).0;
            t'.Has(other) && ContentOf(t'.Row(other)) == ContentOf(t.Row(other))
    ensures var t' := TxRetry(t, id, attempt, text, at).0;
            t'.Has(other) && ContentOf(t'.Row(other)) == ContentOf(t.Row(other))
  {
    hide TimeText.Format, GoStrings.TrimSpace;
  }

  lemma ClaimKeepsContent(t: Tables, session: string, now: nat, other: nat)
    requires t.Has(other)
    ensures var t' := TxClaim(t, session, now, JC.INBOUND_LEASE).0;
            t'.Has(other) && ContentOf(t'.Row(other)) == ContentOf(t.Row(other))
  {
    ClaimTakesHead(t, session, now, JC.INBOUND_LEASE);
    hide TxClaim;
  }

  lemma RenewKeepsContent(t: Tables, id: nat, attempt: nat, now: nat, other: nat)
    requires t.Has(other)
    ensures var t' := TxRenew(t, id, attempt, now, JC.INBOUND_LEASE).0;
            t'.Has(other) && ContentOf(t'.Row(other)) == ContentOf(t.Row(other))
  {
    hide TimeText.Format;
  }

  lemma StepKeepsContent(s: Sys, step: Step, id: nat)
    requires s.db.Has(id)
    ensures Apply(s, step).db.Has(id) && ContentOf(Apply(s, step).db.Row(id)) == ContentOf(s.db.Row(id))
  {
    hide TxClaim, TxRenew, TxRetry, TxFinish, JC.FailureReply, NewRow, ContentOf;
    match step
    case ClaimStep(w, now) =>
      if w in s.workers { ClaimKeepsContent(s.db, s.workers[w].session, now, id); }
    case Beat(w, now) =>
      if w in s.workers && s.workers[w].phase.Handling? {
        RenewKeepsContent(s.db, s.workers[w].phase.job.id, s.workers[w].phase.job.attempt, now, id);
      }
    case LateBeat(i, a, now) => RenewKeepsContent(s.db, i, a, now, id);
    case WriteStep(w, now) =>
      if w in s.workers && s.workers[w].phase.Deciding? {
        var (job, session) := (s.workers[w].phase.job, s.workers[w].session);
        match s.workers[w].phase.action
        case Nothing =>
        case Retry(cause, delay) =>
          WriteKeepsContent(s.db, "", "", cause, job.id, job.attempt, now + delay, None, id);
        case Complete(reply) =>
          WriteKeepsContent(s.db, session, job.channel, reply, job.id, job.attempt, now, None, id);
        case Fail(cause) =>
          var reply := JC.FailureReply(job.id, cause);
          WriteKeepsContent(s.db, session, job.channel, reply, job.id, job.attempt, now, Some(cause), id);
      }
    case _ =>
  }

  /** The step in which a message is received as row `id`. */
  predicate ReceivedAs(s: Sys, step: Step, id: nat, c: Content) {
    && step.Receive? && id == |s.db.inbound| + 1
    && c == Content(step.session, GoStrings.TrimSpace(step.channel), step.text, step.input, TimeText.Format(step.at))
  }

  lemma ReceiveStores(s: Sys, step: Step, id: nat, c: Content)
    requires ReceivedAs(s, step, id, c)
    ensures Apply(s, step).db.Has(id) && ContentOf(Apply(s, step).db.Row(id)) == c
    ensures Apply(s, step).db.Row(id).status == Pending
    ensures Apply(s, step).db.Row(id).nextAttemptAt == Some(TimeText.Format(step.at))
  {
    hide TimeText.Format, GoStrings.TrimSpace;
  }

  /** From the step that receives it on, a message keeps its session, channel, text, input and time of receipt, through
      every claim, retry, crash and reply; and whoever reads its row, at any time, is given exactly these. */
  lemma {:induction false} MessagesStayAsReceived(states: seq<Sys>, steps: seq<Step>, i: nat, j: nat, id: nat,
                                                  c: Content)
    requires IsRun(states, steps) && i < j < |states| && ReceivedAs(states[i], steps[i], id, c)
    ensures states[j].db.Has(id) && ContentOf(states[j].db.Row(id)) == c
    ensures TxRead(states[j].db, id).Some?
    ensures var job := TxRead(states[j].db, id).value; job.id == id && Handed(job) == c
    decreases j - i
  {
    hide Apply, ReceivedAs;
    if i + 1 < j {
      MessagesStayAsReceived(states, steps, i, j - 1, id, c);
      StepKeepsContent(states[j - 1], steps[j - 1], id);
    } else {
      ReceiveStores(states[i], steps[i], id, c);
    }
  }

  lemma StepAddsReceived(s: Sys, step: Step, id: nat)
    requires Apply(s, step).db.Has(id) && !s.db.Has(id)
    ensures ReceivedAs(s, step, id, ContentOf(Apply(s, step).db.Row(id)))
  {
    if step.Receive? {
      ReceiveStores(s, step, |s.db.inbound| + 1, ContentOf(Apply(s, step).db.Row(|s.db.inbound| + 1)));
    }
    hide TimeText.Format, GoStrings.TrimSpace, HeadId, Claimable, JC.FailureReply;
  }

  /** Every row was received. */
  lemma {:induction false} RowsAreReceived(states: seq<Sys>, steps: seq<Step>, j: nat, id: nat) returns (i: nat)
    requires IsRun(states, steps) && j < |states| && states[j].db.Has(id)
    ensures i < j && ReceivedAs(states[i], steps[i], id, ContentOf(states[j].db.Row(id)))
  {
    hide Apply, ReceivedAs;
    if states[j - 1].db.Has(id) {
      i := RowsAreReceived(states, steps, j - 1, id);
      StepKeepsContent(states[j - 1], steps[j - 1], id);
    } else {
      i := j - 1;
      StepAddsReceived(states[i], steps[i], id);
    }
  }

  // ---------- workers carry what was received ----------

  ghost predicate Carries(t: Tables, job: ClaimedRow) {
    t.Has(job.id) && Handed(job) == ContentOf(t.Row(job.id))
  }

  function JobOf(phase: Phase): Option<ClaimedRow> {
    match phase
    case Handling(job, _) => Some(job)
    case Deciding(job, _) => Some(job)
    case _ => None
  }

  ghost predicate WorkersCarry(s: Sys) {
    forall w :: w in s.workers && JobOf(s.workers[w].phase).Some? ==> Carries(s.db, JobOf(s.workers[w].phase).value)
  }

  /** A worker after a step was there before with the same job, or has just read its row. */
  lemma JobsAreRead(s: Sys, step: Step, w: nat)
    requires w in Apply(s, step).workers && JobOf(Apply(s, step).workers[w].phase).Some?
    ensures var job := JobOf(Apply(s, step).workers[w].phase).value;
            || (w in s.workers && JobOf(s.workers[w].phase) == Some(job))
            || (TxRead(s.db, job.id) == Some(job) && Apply(s, step).db == s.db)
  {
    hide TxClaim, TxRenew, TxRetry, TxFinish, TxInsert;
  }

  lemma StepKeepsCarrying(s: Sys, step: Step)
    requires WorkersCarry(s)
    ensures WorkersCarry(Apply(s, step))
  {
    hide Apply, JobOf;
    var s' := Apply(s, step);
    forall w | w in s'.workers && JobOf(s'.workers[w].phase).Some?
      ensures Carries(s'.db, JobOf(s'.workers[w].phase).value)
    {
      JobsAreRead(s, step, w);
      var job := JobOf(s'.workers[w].phase).value;
      if w in s.workers && JobOf(s.workers[w].phase) == Some(job) {
        StepKeepsContent(s, step, job.id);
      }
    }
  }

  lemma {:induction false} WorkersCarryTheirRows(states: seq<Sys>, steps: seq<Step>, j: nat)
    requires IsRun(states, steps) && j < |states|
    ensures WorkersCarry(states[j])
  {
    hide Apply, WorkersCarry;
    if j > 0 {
      WorkersCarryTheirRows(states, steps, j - 1);
      StepKeepsCarrying(states[j - 1], steps[j - 1]);
    } else {
      NobodyCarries();
    }
  }

  lemma NobodyCarries()
    ensures WorkersCarry(INIT)
  {
  }

  /** Whatever a worker handles, in any state of any run, is a message exactly as it was received. */
  lemma HandlersGetWhatWasReceived(states: seq<Sys>, steps: seq<Step>, j: nat, w: nat) returns (i: nat)
    requires IsRun(states, steps) && j < |states|
    requires w in states[j].workers && JobOf(states[j].workers[w].phase).Some?
    ensures var job := JobOf(states[j].workers[w].phase).value;
            i < j && ReceivedAs(states[i], steps[i], job.id, Handed(job))
  {
    hide Apply, ReceivedAs;
    WorkersCarryTheirRows(states, steps, j);
    i := RowsAreReceived(states, steps, j, JobOf(states[j].workers[w].phase).value.id);
  }

  // ---------- replies are what the handlers said ----------

  /** The step in which a worker whose lease stands is done with handling this job, and what the handler said. */
  predicate HandledAs(s: Sys, step: Step, job: ClaimedRow, outcome: JC.Handled) {
    && step.HandledStep? && step.worker in s.workers
    && s.workers[step.worker].phase == Handling(job, false) && step.outcome == outcome
  }

  /** What is to be written is what the handler said: its reply; after a first or second attempt that may be repeated, a
      retry in one or two seconds; and otherwise its failure. */
  predicate Says(action: JC.Action, outcome: JC.Handled, attempt: nat) {
    match action
    case Nothing => true
    case Complete(reply) => outcome == JC.Success(reply)
    case Retry(cause, delay) =>
      && outcome == JC.Failure(cause, true) && attempt <= 2
      && (attempt > 0 ==> delay == attempt * TimeText.NANOS_PER_SECOND)
    case Fail(cause) => outcome.Failure? && outcome.cause == cause && (outcome.retryable ==> attempt >= 3)
  }

  ghost predicate DecidedBefore(states: seq<Sys>, steps: seq<Step>, j: nat, job: ClaimedRow, action: JC.Action)
    requires j < |states| == |steps| + 1
  {
    exists b, outcome :: 0 <= b < j && HandledAs(states[b], steps[b], job, outcome)
                         && Says(action, outcome, job.attempt)
  }

  lemma DecisionsAreMade(s: Sys, step: Step, w: nat)
    requires w in Apply(s, step).workers && Apply(s, step).workers[w].phase.Deciding?
    ensures var phase := Apply(s, step).workers[w].phase;
            || (w in s.workers && s.workers[w].phase == phase)
            || phase.action == JC.Nothing
            || (step.HandledStep? && HandledAs(s, step, phase.job, step.outcome)
                && Says(phase.action, step.outcome, phase.job.attempt))
  {
    hide TxClaim, TxRead, TxRenew, TxRetry, TxFinish, TxInsert;
  }

  lemma {:induction false} DecisionsComeFromHandlers(states: seq<Sys>, steps: seq<Step>, j: nat, w: nat)
    requires IsRun(states, steps) && j < |states|
    requires w in states[j].workers && states[j].workers[w].phase.Deciding?
    requires states[j].workers[w].phase.action != JC.Nothing
    ensures DecidedBefore(states, steps, j, states[j].workers[w].phase.job, states[j].workers[w].phase.action)
  {
    hide Apply, HandledAs, Says;
    DecisionsAreMade(states[j - 1], steps[j - 1], w);
    var phase := states[j].workers[w].phase;
    if w in states[j - 1].workers && states[j - 1].workers[w].phase == phase {
      DecisionsComeFromHandlers(states, steps, j - 1, w);
    }
  }

  /** The decimal numeral of n: digits without a leading zero. */
  predicate Numeral(d: string, n: nat) {
    && d != "" && (forall i :: 0 <= i < |d| ==> '0' <= d[i] <= '9') && (d[0] == '0' ==> |d| == 1)
    && ValueOf(d) == n
  }

  function ValueOf(d: string): int {
    if d == "" then 0 else 10 * ValueOf(d[..|d| - 1]) + (d[|d| - 1] as int - '0' as int)
  }

  lemma {:induction false} DecimalIsNumeral(n: nat)
    ensures Numeral(GoStrings.Decimal(n), n)
    ensures n > 0 ==> GoStrings.Decimal(n)[0] != '0'
  {
    if n >= 10 {
      DecimalIsNumeral(n / 10);
      var (front, last) := (GoStrings.Decimal(n / 10), '0' + (n % 10) as char);
      assert GoStrings.Decimal(n) == front + [last] && (front + [last])[..|front|] == front;
    }
  }

  /** The reply names the message and gives the cause. */
  ghost predicate TellsFailure(reply: string, id: nat, cause: string) {
    exists d :: Numeral(d, id) && reply == "Failed to process message " + d + ": " + cause
  }

  lemma FailureIsTold(id: nat, cause: string)
    ensures TellsFailure(JC.FailureReply(id, cause), id, cause)
  {
    DecimalIsNumeral(id);
    assert Numeral(GoStrings.Decimal(id), id);
  }

  /** How a finished row and its reply show what the handler said. */
  ghost predicate Shows(reply: OutboxRow, row: InboundRow, outcome: JC.Handled) {
    match outcome
    case Success(text) => row.status == Done && row.errorText == None && reply.text == text
    case Failure(cause, _) =>
      && row.status == Failed && row.errorText == Some(GoStrings.TrimSpace(cause))
      && TellsFailure(reply.text, reply.inReplyTo, cause)
    case LeaseLost => false
  }

  predicate NoRetryLeft(outcome: JC.Handled, attempt: nat) {
    outcome.Failure? && outcome.retryable ==> attempt >= 3
  }

  /** The step in which the handler said what this reply to this row shows, with no retry left if it failed. */
  predicate HandledFor(s: Sys, step: Step, id: nat, row: InboundRow, outcome: JC.Handled) {
    && step.HandledStep? && step.worker in s.workers && s.workers[step.worker].phase.Handling?
    && s.workers[step.worker].phase.job.id == id && Handed(s.workers[step.worker].phase.job) == ContentOf(row)
    && step.outcome == outcome
    && NoRetryLeft(outcome, s.workers[step.worker].phase.job.attempt)
  }

  ghost predicate Answered(states: seq<Sys>, steps: seq<Step>, j: nat, reply: OutboxRow)
    requires j < |states| == |steps| + 1
  {
    var t := states[j].db;
    && t.Has(reply.inReplyTo)
    && exists b, outcome ::
         && 0 <= b < j && HandledFor(states[b], steps[b], reply.inReplyTo, t.Row(reply.inReplyTo), outcome)
         && Shows(reply, t.Row(reply.inReplyTo), outcome)
  }

  /** What a write adds to the reply table. */
  lemma NewReplyShows(s: Sys, step: Step, k: nat)
    requires k < |Apply(s, step).db.outbox| && k >= |s.db.outbox|
    ensures step.WriteStep? && step.worker in s.workers && s.workers[step.worker].phase.Deciding?
    ensures var (reply, t) := (Apply(s, step).db.outbox[k], Apply(s, step).db);
            var (job, action) := (s.workers[step.worker].phase.job, s.workers[step.worker].phase.action);
            && action != JC.Nothing && job.id == reply.inReplyTo && t.Has(job.id)
            && forall outcome :: Says(action, outcome, job.attempt) ==>
                 Shows(reply, t.Row(job.id), outcome) && NoRetryLeft(outcome, job.attempt)
  {
    if Writes(s, step) {
      var (job, action) := (s.workers[step.worker].phase.job, s.workers[step.worker].phase.action);
      hide Apply;
      assert Apply(s, step) == ApplyWrite(s, step.worker, job, action, step.now) by { WriteIsApplied(s, step); }
      WrittenReplyShows(s, step.worker, job, action, step.now, k);
    } else {
      OthersWriteNoReply(s, step);
    }
  }

  lemma WriteIsApplied(s: Sys, step: Step)
    requires Writes(s, step)
    ensures Apply(s, step)
         == ApplyWrite(s, step.worker, s.workers[step.worker].phase.job, s.workers[step.worker].phase.action, step.now)
  {
  }

  lemma WrittenReplyShows(s: Sys, w: nat, job: Job, action: JC.Action, now: nat, k: nat)
    requires w in s.workers
    requires k < |ApplyWrite(s, w, job, action, now).db.outbox| && k >= |s.db.outbox|
    ensures var t := ApplyWrite(s, w, job, action, now).db;
            && action != JC.Nothing && job.id == t.outbox[k].inReplyTo && t.Has(job.id)
            && forall outcome :: Says(action, outcome, job.attempt) ==>
                 Shows(t.outbox[k], t.Row(job.id), outcome) && NoRetryLeft(outcome, job.attempt)
  {
    hide TimeText.Format, GoStrings.TrimSpace, JC.FailureReply, TellsFailure;
    if action.Fail? {
      FailureIsTold(job.id, action.cause);
    }
  }

  lemma OldReplyStays(states: seq<Sys>, steps: seq<Step>, j: nat, k: nat)
    requires IsRun(states, steps) && 0 < j < |states| && k < |states[j - 1].db.outbox|
    requires Answered(states, steps, j - 1, states[j - 1].db.outbox[k])
    ensures k < |states[j].db.outbox| && Answered(states, steps, j, states[j].db.outbox[k])
  {
    hide Apply, HandledFor, Shows;
    var (t, t') := (states[j - 1].db, states[j].db);
    FinishedIsForever(states, steps, j - 1, j);
    RunKeepsInv(states, steps, j - 1);
    var reply := t.outbox[k];
    assert ReplyOk(t, reply);
    assert t'.outbox[..|t.outbox|][k] == reply;
    var b, outcome :| 0 <= b < j - 1
                      && HandledFor(states[b], steps[b], reply.inReplyTo, t.Row(reply.inReplyTo), outcome)
                      && Shows(reply, t.Row(reply.inReplyTo), outcome);
    assert t'.Row(reply.inReplyTo) == t.Row(reply.inReplyTo);
  }

  lemma NewReplyIsAnswered(states: seq<Sys>, steps: seq<Step>, j: nat, k: nat)
    requires IsRun(states, steps) && 0 < j < |states| && |states[j - 1].db.outbox| <= k < |states[j].db.outbox|
    ensures Answered(states, steps, j, states[j].db.outbox[k])
  {
    hide Apply, Says, Shows;
    var (s, step) := (states[j - 1], steps[j - 1]);
    NewReplyShows(s, step, k);
    var (reply, t) := (states[j].db.outbox[k], states[j].db);
    var (job, action) := (s.workers[step.worker].phase.job, s.workers[step.worker].phase.action);
    DecisionsComeFromHandlers(states, steps, j - 1, step.worker);
    WorkersCarryTheirRows(states, steps, j - 1);
    assert JobOf(s.workers[step.worker].phase) == Some(job) && Carries(s.db, job);
    StepKeepsContent(s, step, job.id);
    var b, outcome :| 0 <= b < j - 1 && HandledAs(states[b], steps[b], job, outcome)
                      && Says(action, outcome, job.attempt);
    assert HandledFor(states[b], steps[b], reply.inReplyTo, t.Row(reply.inReplyTo), outcome);
  }

  lemma {:induction false} RepliesAreAnswers(states: seq<Sys>, steps: seq<Step>, j: nat, k: nat)
    requires IsRun(states, steps) && j < |states| && k < |states[j].db.outbox|
    ensures Answered(states, steps, j, states[j].db.outbox[k])
  {
    hide Apply, Answered;
    if j > 0 {
      FinishedIsForever(states, steps, j - 1, j);
      if k < |states[j - 1].db.outbox| {
        RepliesAreAnswers(states, steps, j - 1, k);
        OldReplyStays(states, steps, j, k);
      } else {
        NewReplyIsAnswered(states, steps, j, k);
      }
    }
  }

  /** Every reply in every reachable state: its message was received, a worker was handed exactly what had been
      received, its handler said something, and the reply and the message's final status show exactly that. */
  lemma EveryReplyAnswersItsMessage(states: seq<Sys>, steps: seq<Step>, j: nat, k: nat)
    returns (a: nat, b: nat, job: ClaimedRow, outcome: JC.Handled)
    requires IsRun(states, steps) && j < |states| && k < |states[j].db.outbox|
    ensures var reply := states[j].db.outbox[k];
            && a < b < j && states[j].db.Has(reply.inReplyTo) && job.id == reply.inReplyTo
            && ReceivedAs(states[a], steps[a], job.id, Handed(job))
            && steps[b].HandledStep? && steps[b].worker in states[b].workers && steps[b].outcome == outcome
            && JobOf(states[b].workers[steps[b].worker].phase) == Some(job)
            && Shows(reply, states[j].db.Row(reply.inReplyTo), outcome) && NoRetryLeft(outcome, job.attempt)
  {
    hide Apply, Shows, ReceivedAs;
    RepliesAreAnswers(states, steps, j, k);
    var reply := states[j].db.outbox[k];
    var row := states[j].db.Row(reply.inReplyTo);
    b, outcome :| 0 <= b < j && HandledFor(states[b], steps[b], reply.inReplyTo, row, outcome)
                  && Shows(reply, row, outcome);
    job := states[b].workers[steps[b].worker].phase.job;
    a := HandlersGetWhatWasReceived(states, steps, b, steps[b].worker);
  }
}
