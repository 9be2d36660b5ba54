/** Any number of pumps working on the gateway queue at once.

    Each transaction of `GatewayState` is one step; between two steps of a worker anything may happen.  A claim and
    the read of the claimed row are two steps, so two workers can come to hold the same attempt number.  Workers may
    stop at any point, heartbeats may outlive their worker, every step carries its own clock reading, and nothing is
    assumed about those readings.  `log` records the effective transitions; no step looks at it. */
module GatewayProtocol {
  import opened Wrappers
  import opened GatewayState
  import GoStrings
  import JC = JobCompleter
  import TimeText

  /** A worker carries the row as it has read it. */
  type Job = ClaimedRow

  datatype Phase =
    | Ready
    | Claimed(id: nat)
    | Handling(job: Job, lost: bool)
    | Deciding(job: Job, action: JC.Action)

  datatype Worker = Worker(session: string, phase: Phase)

  /** Effective transitions of a row. */
  datatype Effect =
    | Claim(id: nat, attempt: nat, reclaim: bool)
    | Requeue(id: nat, attempt: nat)
    | Finish(id: nat, attempt: nat, reply: string, failed: bool)

  datatype Sys = Sys(db: Tables, workers: map<nat, Worker>, issued: set<(nat, nat)>, log: seq<Effect>)

  datatype Step =
    | Receive(session: string, channel: string, text: string, input: string, at: nat)
    | Start(worker: nat, session: string)
    | ClaimStep(worker: nat, now: nat)
    | ReadStep(worker: nat)
    | Beat(worker: nat, now: nat)
    | LateBeat(id: nat, attempt: nat, now: nat)
    | HandledStep(worker: nat, outcome: JC.Handled)
    | WriteStep(worker: nat, now: nat)
    | Stop(worker: nat)

  const INIT: Sys := Sys(Tables([], []), map[], {}, [])

  function WithPhase(s: Sys, w: nat, phase: Phase): Sys
    requires w in s.workers
  {
    s.(workers := s.workers[w := s.workers[w].(phase := phase)])
  }

  function ApplyClaim(s: Sys, w: nat, now: nat): Sys
    requires w in s.workers
  {
    var (t, id) := TxClaim(s.db, s.workers[w].session, now, JC.INBOUND_LEASE);
    if id == 0 then s.(workers := s.workers - {w})
    else
      WithPhase(s, w, Claimed(id)).(
        db := t, log := s.log + [Claim(id, t.Row(id).attempts, s.db.Row(id).status == Processing)])
  }

  function ApplyRead(s: Sys, w: nat, id: nat): Sys
    requires w in s.workers
  {
    match TxRead(s.db, id)
    case None => s.(workers := s.workers - {w})
    case Some(row) =>
      WithPhase(s, w, Handling(row, false)).(
        issued := s.issued + {(id, row.attempt)})
  }

  function ApplyWrite(s: Sys, w: nat, job: Job, action: JC.Action, now: nat): Sys
    requires w in s.workers
  {
    var ready := WithPhase(s, w, Ready);
    var session := s.workers[w].session;
    match action
    case Nothing => ready
    case Retry(cause, delay) =>
      var (t, effective) := TxRetry(s.db, job.id, job.attempt, cause, now + delay);
      ready.(db := t, log := if effective then s.log + [Requeue(job.id, job.attempt)] else s.log)
    case Complete(reply) =>
      var (t, outboxId) := TxFinish(s.db, session, job.channel, reply, job.id, job.attempt, now, None);
      ready.(db := t, log := if outboxId != 0 then s.log + [Finish(job.id, job.attempt, reply, false)] else s.log)
    case Fail(cause) =>
      var reply := JC.FailureReply(job.id, cause);
      var (t, outboxId) := TxFinish(s.db, session, job.channel, reply, job.id, job.attempt, now, Some(cause));
      ready.(db := t, log := if outboxId != 0 then s.log + [Finish(job.id, job.attempt, reply, true)] else s.log)
  }

  /** One step; a step that is not enabled changes nothing. */
  function Apply(s: Sys, step: Step): Sys {
    match step
    case Receive(session, channel, text, input, at) => s.(db := TxInsert(s.db, session, channel, text, input, at))
    case Start(w, session) =>
      if w in s.workers then s else s.(workers := s.workers[w := Worker(session, Ready)])
    case ClaimStep(w, now) =>
      if w in s.workers && s.workers[w].phase.Ready? then ApplyClaim(s, w, now) else s
    case ReadStep(w) =>
      if w in s.workers && s.workers[w].phase.Claimed? then ApplyRead(s, w, s.workers[w].phase.id) else s
    case Beat(w, now) =>
      if w in s.workers && s.workers[w].phase.Handling? then
        var (job, lost) := (s.workers[w].phase.job, s.workers[w].phase.lost);
        var (t, renewed) := TxRenew(s.db, job.id, job.attempt, now, JC.INBOUND_LEASE);
        WithPhase(s, w, Handling(job, lost || !renewed)).(db := t)
      else s
    case LateBeat(id, attempt, now) =>
      if (id, attempt) in s.issued then s.(db := TxRenew(s.db, id, attempt, now, JC.INBOUND_LEASE).0) else s
    case HandledStep(w, outcome) =>
      if w in s.workers && s.workers[w].phase.Handling? then
        var (job, lost) := (s.workers[w].phase.job, s.workers[w].phase.lost);
        WithPhase(s, w, Deciding(job, JC.Decide(if lost then JC.LeaseLost else outcome, job.attempt)))
      else s
    case WriteStep(w, now) =>
      if w in s.workers && s.workers[w].phase.Deciding? then
        ApplyWrite(s, w, s.workers[w].phase.job, s.workers[w].phase.action, now)
      else s
    case Stop(w) => s.(workers := s.workers - {w})
  }

  /** A run of the whole system: any sequence of steps, with the state before and after each. */
  ghost predicate IsRun(states: seq<Sys>, steps: seq<Step>) {
    && |states| == |steps| + 1
    && states[0] == INIT
    && forall i {:trigger steps[i]} :: 0 <= i < |steps| ==> states[i + 1] == Apply(states[i], steps[i])
  }

  // ---------- invariant ----------

  ghost predicate RowOk(row: InboundRow) {
    && row.nextAttemptAt.Some?
    && GoStrings.TrimSpace(row.channel) == row.channel
    && (row.status == Processing <==> row.leaseUntil.Some?)
    && (row.Terminal() <==> row.processedAt.Some?)
    && (row.status != Pending ==> row.attempts >= 1)
    && (row.status == Done ==> row.errorText.None?)
    && (row.status == Failed ==> row.errorText.Some?)
  }

  /** A row that has ever been claimed. */
  predicate Touched(row: InboundRow) {
    row.status != Pending || row.attempts > 0
  }

  /** Before any row that has been claimed, the session's earlier rows are finished. */
  ghost predicate Fifo(rows: seq<InboundRow>) {
    forall i, j :: 0 <= i < j < |rows| && rows[i].session == rows[j].session && Touched(rows[j]) ==> rows[i].Terminal()
  }

  ghost predicate ReplyOk(t: Tables, reply: OutboxRow) {
    && t.Has(reply.inReplyTo)
    && t.Row(reply.inReplyTo).Terminal()
    && t.Row(reply.inReplyTo).session == reply.session
    && t.Row(reply.inReplyTo).channel == reply.channel
  }

  ghost predicate RepliesInOrder(outbox: seq<OutboxRow>) {
    forall k, l :: 0 <= k < l < |outbox| && outbox[k].session == outbox[l].session
                   ==> outbox[k].inReplyTo < outbox[l].inReplyTo
  }

  predicate Replied(outbox: seq<OutboxRow>, id: nat) {
    exists k :: 0 <= k < |outbox| && outbox[k].inReplyTo == id
  }

  ghost predicate InvDb(t: Tables) {
    && (forall i :: 0 <= i < |t.inbound| ==> RowOk(t.inbound[i]))
    && Fifo(t.inbound)
    && (forall k :: 0 <= k < |t.outbox| ==> ReplyOk(t, t.outbox[k]))
    && RepliesInOrder(t.outbox)
    && (forall id :: t.Has(id) && t.Row(id).Terminal() ==> Replied(t.outbox, id))
  }

  ghost predicate TokenOk(t: Tables, id: nat, attempt: nat) {
    t.Has(id) && 1 <= attempt <= t.Row(id).attempts
  }

  ghost predicate JobOk(t: Tables, session: string, job: Job) {
    && TokenOk(t, job.id, job.attempt)
    && t.Row(job.id).session == session
    && t.Row(job.id).channel == job.channel
  }

  ghost predicate WorkerOk(t: Tables, w: Worker) {
    match w.phase
    case Ready => true
    case Claimed(id) => t.Has(id) && t.Row(id).session == w.session && t.Row(id).attempts >= 1
    case Handling(job, _) => JobOk(t, w.session, job)
    case Deciding(job, action) =>
      JobOk(t, w.session, job) && (action.Retry? ==> job.attempt < JC.MAX_ATTEMPTS)
  }

  ghost predicate InvWorkers(s: Sys) {
    && (forall w :: w in s.workers ==> WorkerOk(s.db, s.workers[w]))
    && (forall token :: token in s.issued ==> TokenOk(s.db, token.0, token.1))
  }

  predicate Resolves(e: Effect, id: nat, attempt: nat) {
    (e.Requeue? || e.Finish?) && e.id == id && e.attempt == attempt
  }

  function Requeues(log: seq<Effect>, id: nat): nat {
    if log == [] then 0
    else Requeues(log[..|log| - 1], id) + (if log[|log| - 1].Requeue? && log[|log| - 1].id == id then 1 else 0)
  }

  function Reclaims(log: seq<Effect>, id: nat): nat {
    if log == [] then 0
    else
      var e := log[|log| - 1];
      Reclaims(log[..|log| - 1], id) + (if e.Claim? && e.id == id && e.reclaim then 1 else 0)
  }

  /** How many times a (row, attempt) pair was resolved: requeued, completed or failed. */
  function Resolutions(log: seq<Effect>, id: nat, attempt: nat): nat {
    if log == [] then 0
    else Resolutions(log[..|log| - 1], id, attempt) + (if Resolves(log[|log| - 1], id, attempt) then 1 else 0)
  }

  ghost predicate Accounted(t: Tables, log: seq<Effect>, id: nat)
    requires t.Has(id)
  {
    t.Row(id).attempts == Requeues(log, id) + Reclaims(log, id) + (if t.Row(id).status == Pending then 0 else 1)
  }

  /** Attempts not yet reached are unresolved, past ones were resolved at most once, and the current one of a row in
      process is still open. */
  ghost predicate ResolvedOnce(t: Tables, log: seq<Effect>, id: nat) {
    && (forall a: nat :: Resolutions(log, id, a) <= 1)
    && (forall a: nat :: Resolutions(log, id, a) > 0 ==>
          t.Has(id) && 1 <= a <= t.Row(id).attempts && (a == t.Row(id).attempts ==> t.Row(id).status != Processing))
  }

  ghost predicate InvLog(t: Tables, log: seq<Effect>) {
    && (forall id :: t.Has(id) ==> Accounted(t, log, id))
    && (forall id :: ResolvedOnce(t, log, id))
    && (forall k :: 0 <= k < |log| && log[k].Requeue? ==> 1 <= log[k].attempt < JC.MAX_ATTEMPTS)
    && (forall id :: !t.Has(id) ==> Requeues(log, id) == Reclaims(log, id) == 0)
  }

  ghost predicate Inv(s: Sys) {
    InvDb(s.db) && InvWorkers(s) && InvLog(s.db, s.log)
  }

  // ---------- transactions keep the tables in order ----------

  lemma InsertKeepsDb(t: Tables, session: string, channel: string, text: string, input: string, at: nat)
    requires InvDb(t)
    ensures InvDb(TxInsert(t, session, channel, text, input, at))
  {
    GoStrings.TrimSpaceTwice(channel);
    hide TimeText.Format, GoStrings.TrimSpace;
    var t' := TxInsert(t, session, channel, text, input, at);
    assert forall id :: t.Has(id) ==> t'.Row(id) == t.Row(id);
    assert forall k :: 0 <= k < |t.outbox| ==> ReplyOk(t, t.outbox[k]);
    assert forall id :: t'.Has(id) && t'.Row(id).Terminal() ==> t.Has(id);
  }

  ghost predicate EarlierDone(rows: seq<InboundRow>, id: nat)
    requires 1 <= id <= |rows|
  {
    forall i :: 0 <= i < id - 1 && rows[i].session == rows[id - 1].session ==> rows[i].Terminal()
  }

  /** Replacing an unfinished row by a row that is still unfinished and names the same message. */
  lemma ActiveUpdateKeepsDb(t: Tables, id: nat, row: InboundRow)
    requires InvDb(t) && t.Has(id) && t.Row(id).Active()
    requires RowOk(row) && row.Active() && row.session == t.Row(id).session
    requires Touched(t.Row(id)) || EarlierDone(t.inbound, id)
    ensures InvDb(t.Update(id, row))
  {
    var t' := t.Update(id, row);
    forall k | 0 <= k < |t'.outbox| ensures ReplyOk(t', t'.outbox[k]) {
      assert ReplyOk(t, t.outbox[k]);
    }
    forall i, j | 0 <= i < j < |t'.inbound| && t'.inbound[i].session == t'.inbound[j].session && Touched(t'.inbound[j])
      ensures t'.inbound[i].Terminal()
    {
      assert j != id - 1 ==> Touched(t.inbound[j]);
    }
    forall other | t'.Has(other) && t'.Row(other).Terminal() ensures Replied(t'.outbox, other) {
      assert t.Row(other).Terminal();
    }
  }

  /** The row in process is finished and its reply appended. */
  ghost predicate Finishes(t: Tables, t': Tables, id: nat) {
    && t.Has(id) && t.Row(id).status == Processing
    && |t'.inbound| == |t.inbound| && |t'.outbox| == |t.outbox| + 1
    && t'.inbound == t.inbound[id - 1 := t'.inbound[id - 1]]
    && t'.outbox == t.outbox + [t'.outbox[|t.outbox|]]
    && RowOk(t'.Row(id)) && t'.Row(id).Terminal()
    && t'.Row(id).session == t.Row(id).session && t'.Row(id).channel == t.Row(id).channel
    && t'.outbox[|t.outbox|].inReplyTo == id
    && t'.outbox[|t.outbox|].session == t.Row(id).session && t'.outbox[|t.outbox|].channel == t.Row(id).channel
  }

  lemma FinishKeepsFifo(t: Tables, t': Tables, id: nat)
    requires InvDb(t) && Finishes(t, t', id)
    ensures Fifo(t'.inbound)
  {
  }

  lemma FinishKeepsReplies(t: Tables, t': Tables, id: nat)
    requires InvDb(t) && Finishes(t, t', id)
    ensures forall k :: 0 <= k < |t'.outbox| ==> ReplyOk(t', t'.outbox[k])
    ensures forall other :: t'.Has(other) && t'.Row(other).Terminal() ==> Replied(t'.outbox, other)
  {
    var last := |t.outbox|;
    forall k | 0 <= k < |t'.outbox| ensures ReplyOk(t', t'.outbox[k]) {
      if k < last {
        assert ReplyOk(t, t.outbox[k]);
        assert t'.outbox[k] == t.outbox[k];
      }
    }
    forall other | t'.Has(other) && t'.Row(other).Terminal() ensures Replied(t'.outbox, other) {
      if other != id {
        assert t.Row(other).Terminal();
        var k :| 0 <= k < last && t.outbox[k].inReplyTo == other;
        assert t'.outbox[k].inReplyTo == other;
      } else {
        assert t'.outbox[last].inReplyTo == other;
      }
    }
  }

  lemma FinishKeepsOrder(t: Tables, t': Tables, id: nat)
    requires InvDb(t) && Finishes(t, t', id)
    ensures RepliesInOrder(t'.outbox)
  {
  }

  lemma FinishKeepsDb(t: Tables, session: string, channel: string, reply: string, id: nat, attempt: nat, at: nat,
                      failure: Option<string>)
    requires InvDb(t) && Holds(t, id, attempt)
    requires t.Row(id).session == session && t.Row(id).channel == channel
    ensures InvDb(TxFinish(t, session, channel, reply, id, attempt, at, failure).0)
    ensures Finishes(t, TxFinish(t, session, channel, reply, id, attempt, at, failure).0, id)
  {
    var t' := TxFinish(t, session, channel, reply, id, attempt, at, failure).0;
    assert RowOk(t.Row(id));
    FinishKeepsFifo(t, t', id);
    FinishKeepsReplies(t, t', id);
    FinishKeepsOrder(t, t', id);
  }

  // ---------- steps keep workers and log in order ----------

  /** Rows stay, keep their session and channel, and never lose attempts. */
  ghost predicate Grows(t: Tables, t': Tables) {
    forall id :: t.Has(id) ==>
      && t'.Has(id)
      && t'.Row(id).session == t.Row(id).session
      && t'.Row(id).channel == t.Row(id).channel
      && t'.Row(id).attempts >= t.Row(id).attempts
  }

  lemma GrowthKeepsWorkers(s: Sys, t: Tables)
    requires InvWorkers(s) && Grows(s.db, t)
    ensures InvWorkers(s.(db := t))
  {
  }

  lemma PhaseKeepsWorkers(s: Sys, w: nat, phase: Phase)
    requires InvWorkers(s) && w in s.workers && WorkerOk(s.db, s.workers[w].(phase := phase))
    ensures InvWorkers(WithPhase(s, w, phase))
  {
  }

  lemma LogGrows(log: seq<Effect>, e: Effect)
    ensures forall id :: Requeues(log + [e], id) == Requeues(log, id) + (if e.Requeue? && e.id == id then 1 else 0)
    ensures forall id :: Reclaims(log + [e], id)
                      == Reclaims(log, id) + (if e.Claim? && e.id == id && e.reclaim then 1 else 0)
    ensures forall id, a: nat :: Resolutions(log + [e], id, a)
                              == Resolutions(log, id, a) + (if Resolves(e, id, a) then 1 else 0)
  {
  }

  /** Steps without an effect: attempts and pending rows stay, new rows start from zero. */
  lemma QuietKeepsLog(s: Sys, t: Tables)
    requires InvLog(s.db, s.log)
    requires forall id :: s.db.Has(id) ==>
               t.Has(id) && t.Row(id).attempts == s.db.Row(id).attempts && t.Row(id).status == s.db.Row(id).status
    requires forall id :: t.Has(id) && !s.db.Has(id) ==> t.Row(id).attempts == 0 && t.Row(id).status == Pending
    ensures InvLog(t, s.log)
  {
    forall id | t.Has(id) ensures Accounted(t, s.log, id) {
      if s.db.Has(id) { assert Accounted(s.db, s.log, id); }
    }
    forall id ensures ResolvedOnce(t, s.log, id) {
      assert ResolvedOnce(s.db, s.log, id);
    }
  }

  /** What an effect does to the row it is about. */
  ghost predicate EffectOn(t: Tables, row: InboundRow, e: Effect) {
    && t.Has(e.id)
    && row.attempts == t.Row(e.id).attempts + (if e.Claim? then 1 else 0)
    && (e.Claim? ==> row.status == Processing && t.Row(e.id).Active()
                     && (e.reclaim <==> t.Row(e.id).status == Processing))
    && (!e.Claim? ==> t.Row(e.id).status == Processing && e.attempt == row.attempts >= 1)
    && (e.Requeue? ==> row.status == Pending && e.attempt < JC.MAX_ATTEMPTS)
    && (e.Finish? ==> row.Terminal())
  }

  lemma EffectKeepsAccount(t: Tables, log: seq<Effect>, row: InboundRow, e: Effect, id: nat)
    requires EffectOn(t, row, e) && t.Has(id) && Accounted(t, log, id)
    ensures Accounted(t.Update(e.id, row), log + [e], id)
  {
  }

  lemma EffectKeepsResolution(t: Tables, log: seq<Effect>, row: InboundRow, e: Effect, id: nat)
    requires EffectOn(t, row, e) && ResolvedOnce(t, log, id)
    ensures ResolvedOnce(t.Update(e.id, row), log + [e], id)
  {
    LogGrows(log, e);
  }

  /** Steps with one effect on one row. */
  lemma EffectKeepsLog(s: Sys, row: InboundRow, e: Effect)
    requires InvLog(s.db, s.log) && EffectOn(s.db, row, e)
    ensures InvLog(s.db.Update(e.id, row), s.log + [e])
  {
    hide Accounted, ResolvedOnce, Requeues, Reclaims, Resolutions;
    LogGrows(s.log, e);
    var t := s.db.Update(e.id, row);
    forall id | t.Has(id) ensures Accounted(t, s.log + [e], id) {
      EffectKeepsAccount(s.db, s.log, row, e, id);
    }
    forall id ensures ResolvedOnce(t, s.log + [e], id) {
      EffectKeepsResolution(s.db, s.log, row, e, id);
    }
  }

  lemma OutboxIsQuiet(s: Sys, outbox: seq<OutboxRow>)
    requires InvLog(s.db, s.log)
    ensures InvLog(s.db.(outbox := outbox), s.log)
  {
    QuietKeepsLog(s, s.db.(outbox := outbox));
  }

  // ---------- each step ----------

  lemma ReceiveKeepsInv(s: Sys, session: string, channel: string, text: string, input: string, at: nat)
    requires Inv(s)
    ensures Inv(Apply(s, Receive(session, channel, text, input, at)))
  {
    var t := TxInsert(s.db, session, channel, text, input, at);
    InsertKeepsDb(s.db, session, channel, text, input, at);
    GrowthKeepsWorkers(s, t);
    QuietKeepsLog(s, t);
  }

  /** A claim touches the head of the session's queue and nothing else. */
  lemma ClaimTakesHead(t: Tables, session: string, now: nat, duration: int)
    ensures var (t', id) := TxClaim(t, session, now, duration);
            && (id == 0 ==> t' == t)
            && (id != 0 ==> ClaimTakes(t, t', session, id))
  {
    hide HeadId, Claimable, TimeText.Format;
  }

  ghost predicate ClaimTakes(t: Tables, t': Tables, session: string, id: nat) {
    && t.Has(id) && t'.Has(id)
    && t.Row(id).session == session && t.Row(id).Active() && EarlierDone(t.inbound, id)
    && t' == t.Update(id, t'.Row(id))
    && t'.Row(id).leaseUntil.Some?
    && t'.Row(id) == t.Row(id).(status := Processing, attempts := t.Row(id).attempts + 1,
                                leaseUntil := t'.Row(id).leaseUntil, processedAt := None)
  }

  lemma ClaimKeepsDb(t: Tables, t': Tables, session: string, id: nat)
    requires InvDb(t) && ClaimTakes(t, t', session, id)
    ensures InvDb(t') && Grows(t, t')
  {
    assert RowOk(t.Row(id));
    ActiveUpdateKeepsDb(t, id, t'.Row(id));
  }

  lemma RetryKeepsDb(t: Tables, id: nat, attempt: nat, cause: string, at: nat)
    requires InvDb(t) && Holds(t, id, attempt)
    ensures var t' := TxRetry(t, id, attempt, cause, at).0;
            && InvDb(t') && Grows(t, t') && t' == t.Update(id, t'.Row(id))
            && t'.Row(id).status == Pending && t'.Row(id).attempts == t.Row(id).attempts >= 1
  {
    hide TimeText.Format, GoStrings.TrimSpace;
    var t' := TxRetry(t, id, attempt, cause, at).0;
    assert RowOk(t.Row(id));
    ActiveUpdateKeepsDb(t, id, t'.Row(id));
  }

  lemma ClaimKeepsInv(s: Sys, w: nat, now: nat)
    requires Inv(s) && w in s.workers
    ensures Inv(ApplyClaim(s, w, now))
  {
    var (t, id) := TxClaim(s.db, s.workers[w].session, now, JC.INBOUND_LEASE);
    ClaimTakesHead(s.db, s.workers[w].session, now, JC.INBOUND_LEASE);
    if id != 0 {
      ClaimLogged(s, w, t, id, Claim(id, t.Row(id).attempts, s.db.Row(id).status == Processing));
    }
  }

  lemma ClaimLogged(s: Sys, w: nat, t: Tables, id: nat, e: Effect)
    requires Inv(s) && w in s.workers && ClaimTakes(s.db, t, s.workers[w].session, id)
    requires e == Claim(id, t.Row(id).attempts, s.db.Row(id).status == Processing)
    ensures Inv(WithPhase(s, w, Claimed(id)).(db := t, log := s.log + [e]))
  {
    ClaimKeepsDb(s.db, t, s.workers[w].session, id);
    EffectKeepsLog(s, t.Row(id), e);
    GrowthKeepsWorkers(s, t);
    PhaseKeepsWorkers(s.(db := t), w, Claimed(id));
  }

  lemma RenewKeepsInv(s: Sys, id: nat, attempt: nat, now: nat)
    requires Inv(s)
    ensures Inv(s.(db := TxRenew(s.db, id, attempt, now, JC.INBOUND_LEASE).0))
  {
    hide TimeText.Format;
    var t := TxRenew(s.db, id, attempt, now, JC.INBOUND_LEASE).0;
    if Holds(s.db, id, attempt) {
      assert RowOk(s.db.Row(id));
      ActiveUpdateKeepsDb(s.db, id, t.Row(id));
    }
    GrowthKeepsWorkers(s, t);
    QuietKeepsLog(s, t);
  }

  lemma ReadKeepsInv(s: Sys, w: nat)
    requires Inv(s) && w in s.workers && s.workers[w].phase.Claimed?
    ensures Inv(ApplyRead(s, w, s.workers[w].phase.id))
  {
  }

  lemma RetryKeepsInv(s: Sys, w: nat, job: Job, cause: string, delay: nat, now: nat)
    requires Inv(s) && w in s.workers && s.workers[w].phase == Deciding(job, JC.Retry(cause, delay))
    ensures Inv(ApplyWrite(s, w, job, JC.Retry(cause, delay), now))
  {
    hide TimeText.Format, GoStrings.TrimSpace, InvDb, InvLog;
    assert WorkerOk(s.db, s.workers[w]);
    var (t, effective) := TxRetry(s.db, job.id, job.attempt, cause, now + delay);
    if effective {
      RetryKeepsDb(s.db, job.id, job.attempt, cause, now + delay);
      RetryLogged(s, w, job, t);
    } else {
      PhaseKeepsWorkers(s, w, Ready);
    }
  }

  lemma RetryLogged(s: Sys, w: nat, job: Job, t: Tables)
    requires Inv(s) && w in s.workers && Holds(s.db, job.id, job.attempt) && 1 <= job.attempt < JC.MAX_ATTEMPTS
    requires InvDb(t) && Grows(s.db, t) && t.Has(job.id) && t == s.db.Update(job.id, t.Row(job.id))
    requires t.Row(job.id).status == Pending && t.Row(job.id).attempts == job.attempt
    ensures Inv(WithPhase(s, w, Ready).(db := t, log := s.log + [Requeue(job.id, job.attempt)]))
  {
    EffectKeepsLog(s, t.Row(job.id), Requeue(job.id, job.attempt));
    GrowthKeepsWorkers(s, t);
    PhaseKeepsWorkers(s.(db := t), w, Ready);
  }

  lemma FinishKeepsInv(s: Sys, w: nat, job: Job, reply: string, failure: Option<string>, now: nat)
    requires Inv(s) && w in s.workers && s.workers[w].phase.Deciding? && s.workers[w].phase.job == job
    ensures var session := s.workers[w].session;
            var (t, outboxId) := TxFinish(s.db, session, job.channel, reply, job.id, job.attempt, now, failure);
            Inv(WithPhase(s, w, Ready).(
              db := t,
              log := if outboxId != 0 then s.log + [Finish(job.id, job.attempt, reply, failure.Some?)] else s.log))
  {
    hide TimeText.Format, GoStrings.TrimSpace, InvDb, InvLog;
    assert WorkerOk(s.db, s.workers[w]);
    var session := s.workers[w].session;
    var t := TxFinish(s.db, session, job.channel, reply, job.id, job.attempt, now, failure).0;
    if Holds(s.db, job.id, job.attempt) {
      FinishKeepsDb(s.db, session, job.channel, reply, job.id, job.attempt, now, failure);
      var e := Finish(job.id, job.attempt, reply, failure.Some?);
      EffectKeepsLog(s, t.Row(job.id), e);
      OutboxIsQuiet(s.(db := s.db.Update(job.id, t.Row(job.id)), log := s.log + [e]), t.outbox);
    }
    GrowthKeepsWorkers(s, t);
    PhaseKeepsWorkers(s.(db := t), w, Ready);
  }

  lemma WriteKeepsInv(s: Sys, w: nat, job: Job, action: JC.Action, now: nat)
    requires Inv(s) && w in s.workers && s.workers[w].phase == Deciding(job, action)
    ensures Inv(ApplyWrite(s, w, job, action, now))
  {
    hide InvDb, InvLog, TxRetry, TxFinish;
    match action
    case Nothing => PhaseKeepsWorkers(s, w, Ready);
    case Retry(cause, delay) => RetryKeepsInv(s, w, job, cause, delay, now);
    case Complete(reply) => FinishKeepsInv(s, w, job, reply, None, now);
    case Fail(cause) => FinishKeepsInv(s, w, job, JC.FailureReply(job.id, cause), Some(cause), now);
  }

  lemma StepKeepsInv(s: Sys, step: Step)
    requires Inv(s)
    ensures Inv(Apply(s, step))
  {
    hide TxRenew, TxInsert, InvDb, InvLog, ApplyClaim, ApplyWrite, ApplyRead;
    match step
    case Receive(session, channel, text, input, at) => ReceiveKeepsInv(s, session, channel, text, input, at);
    case Start(w, session) =>
    case ClaimStep(w, now) =>
      if w in s.workers && s.workers[w].phase.Ready? { ClaimKeepsInv(s, w, now); }
    case ReadStep(w) =>
      if w in s.workers && s.workers[w].phase.Claimed? { ReadKeepsInv(s, w); }
    case Beat(w, now) =>
      if w in s.workers && s.workers[w].phase.Handling? {
        var job := s.workers[w].phase.job;
        assert WorkerOk(s.db, s.workers[w]);
        RenewKeepsInv(s, job.id, job.attempt, now);
        var t := TxRenew(s.db, job.id, job.attempt, now, JC.INBOUND_LEASE).0;
        PhaseKeepsWorkers(s.(db := t), w, Apply(s, step).workers[w].phase);
      }
    case LateBeat(id, attempt, now) => RenewKeepsInv(s, id, attempt, now);
    case HandledStep(w, outcome) =>
      if w in s.workers && s.workers[w].phase.Handling? {
        assert WorkerOk(s.db, s.workers[w]);
        PhaseKeepsWorkers(s, w, Apply(s, step).workers[w].phase);
      }
    case WriteStep(w, now) =>
      if w in s.workers && s.workers[w].phase.Deciding? {
        WriteKeepsInv(s, w, s.workers[w].phase.job, s.workers[w].phase.action, now);
      }
    case Stop(w) =>
  }

  lemma InitialInv()
    ensures Inv(INIT)
  {
  }

  lemma {:induction false} RunKeepsInv(states: seq<Sys>, steps: seq<Step>, i: nat)
    requires IsRun(states, steps) && i < |states|
    ensures Inv(states[i])
  {
    hide Apply, Inv;
    InitialInv();
    if i > 0 {
      RunKeepsInv(states, steps, i - 1);
      StepKeepsInv(states[i - 1], steps[i - 1]);
    }
  }

  // ---------- main results: every run of any number of pumps ----------

  function ReplyCount(outbox: seq<OutboxRow>, id: nat): nat {
    if outbox == [] then 0
    else ReplyCount(outbox[..|outbox| - 1], id) + (if outbox[|outbox| - 1].inReplyTo == id then 1 else 0)
  }

  lemma {:induction false} ReplyCountOf(outbox: seq<OutboxRow>, id: nat)
    ensures ReplyCount(outbox, id) > 0 <==> Replied(outbox, id)
    ensures (forall k, l :: 0 <= k < l < |outbox| && outbox[k].inReplyTo == id ==> outbox[l].inReplyTo != id)
            ==> ReplyCount(outbox, id) <= 1
  {
    if outbox != [] {
      var rest := outbox[..|outbox| - 1];
      ReplyCountOf(rest, id);
      if Replied(outbox, id) && outbox[|outbox| - 1].inReplyTo != id {
        var k :| 0 <= k < |outbox| && outbox[k].inReplyTo == id;
        assert rest[k].inReplyTo == id;
      }
      if Replied(rest, id) {
        var k :| 0 <= k < |rest| && rest[k].inReplyTo == id;
        assert outbox[k].inReplyTo == id;
      }
      if outbox[|outbox| - 1].inReplyTo == id {
        assert Replied(outbox, id);
      }
    }
  }

  /** A message has exactly one reply when it is done or failed, and none before. */
  lemma ExactlyOneReply(states: seq<Sys>, steps: seq<Step>, i: nat, id: nat)
    requires IsRun(states, steps) && i < |states|
    ensures var t := states[i].db;
            ReplyCount(t.outbox, id) == (if t.Has(id) && t.Row(id).Terminal() then 1 else 0)
  {
    RunKeepsInv(states, steps, i);
    var t := states[i].db;
    ReplyCountOf(t.outbox, id);
    forall k, l | 0 <= k < l < |t.outbox| && t.outbox[k].inReplyTo == id ensures t.outbox[l].inReplyTo != id {
      assert ReplyOk(t, t.outbox[k]) && ReplyOk(t, t.outbox[l]);
    }
    if Replied(t.outbox, id) {
      var k :| 0 <= k < |t.outbox| && t.outbox[k].inReplyTo == id;
      assert ReplyOk(t, t.outbox[k]);
    }
  }

  ghost predicate Settled(t: Tables, t': Tables) {
    && (forall id :: t.Has(id) && t.Row(id).Terminal() ==> t'.Has(id) && t'.Row(id) == t.Row(id))
    && |t.outbox| <= |t'.outbox| && t'.outbox[..|t.outbox|] == t.outbox
  }

  lemma WritesSettle(t: Tables, session: string, channel: string, text: string, id: nat, attempt: nat, at: nat,
                     failure: Option<string>)
    ensures Settled(t, TxFinish(t, session, channel, text, id, attempt, at, failure).0)
    ensures Settled(t, TxRetry(t, id, attempt, text, at).0)
  {
  }

  lemma StepSettles(s: Sys, step: Step)
    ensures Settled(s.db, Apply(s, step).db)
  {
    hide TimeText.Format, GoStrings.TrimSpace;
    match step
    case ClaimStep(w, now) =>
      if w in s.workers && s.workers[w].phase.Ready? {
        ClaimTakesHead(s.db, s.workers[w].session, now, JC.INBOUND_LEASE);
      }
    case WriteStep(w, now) =>
      if w in s.workers && s.workers[w].phase.Deciding? {
        var (job, session) := (s.workers[w].phase.job, s.workers[w].session);
        match s.workers[w].phase.action
        case Nothing =>
        case Retry(cause, delay) => WritesSettle(s.db, "", "", cause, job.id, job.attempt, now + delay, None);
        case Complete(reply) => WritesSettle(s.db, session, job.channel, reply, job.id, job.attempt, now, None);
        case Fail(cause) =>
          var reply := JC.FailureReply(job.id, cause);
          WritesSettle(s.db, session, job.channel, reply, job.id, job.attempt, now, Some(cause));
      }
    case Beat(w, now) =>
      if w in s.workers && s.workers[w].phase.Handling? {
        RenewSettles(s.db, s.workers[w].phase.job.id, s.workers[w].phase.job.attempt, now);
      }
    case LateBeat(id, attempt, now) => RenewSettles(s.db, id, attempt, now);
    case _ =>
  }

  lemma RenewSettles(t: Tables, id: nat, attempt: nat, now: nat)
    ensures Settled(t, TxRenew(t, id, attempt, now, JC.INBOUND_LEASE).0)
  {
  }

  /** However a run continues, a finished message is never touched again and no reply is withdrawn or altered. */
  lemma {:induction false} FinishedIsForever(states: seq<Sys>, steps: seq<Step>, i: nat, j: nat)
    requires IsRun(states, steps) && i <= j < |states|
    ensures Settled(states[i].db, states[j].db)
    decreases j - i
  {
    hide Apply;
    if i < j {
      StepSettles(states[j - 1], steps[j - 1]);
      FinishedIsForever(states, steps, i, j - 1);
      var (t, t', t'') := (states[i].db, states[j - 1].db, states[j].db);
      assert t''.outbox[..|t.outbox|] == t''.outbox[..|t'.outbox|][..|t.outbox|];
    }
  }

  predicate InProcess(row: InboundRow, session: string) {
    row.status == Processing && row.session == session
  }

  /** Strict FIFO: a session has at most one message in process, and it is the head of its queue. */
  lemma OneInProcessAtTheHead(states: seq<Sys>, steps: seq<Step>, i: nat, id: nat, other: nat)
    requires IsRun(states, steps) && i < |states|
    requires states[i].db.Has(id) && states[i].db.Row(id).status == Processing
    ensures HeadId(states[i].db.inbound, states[i].db.Row(id).session) == id
    ensures states[i].db.Has(other) && InProcess(states[i].db.Row(other), states[i].db.Row(id).session) ==> other == id
  {
    RunKeepsInv(states, steps, i);
    ProcessingIsHead(states[i].db, id);
    if states[i].db.Has(other) && states[i].db.Row(other).status == Processing {
      ProcessingIsHead(states[i].db, other);
    }
  }

  lemma ProcessingIsHead(t: Tables, id: nat)
    requires InvDb(t) && t.Has(id) && t.Row(id).status == Processing
    ensures HeadId(t.inbound, t.Row(id).session) == id
  {
  }

  /** A session's replies are written in the order its messages were received. */
  lemma RepliesFollowArrival(states: seq<Sys>, steps: seq<Step>, i: nat, k: nat, l: nat)
    requires IsRun(states, steps) && i < |states| && k < l < |states[i].db.outbox|
    requires states[i].db.outbox[k].session == states[i].db.outbox[l].session
    ensures states[i].db.outbox[k].inReplyTo < states[i].db.outbox[l].inReplyTo
  {
    RunKeepsInv(states, steps, i);
  }

  /** Every reply carries the session and the channel of the message it answers. */
  lemma RepliesGoHome(states: seq<Sys>, steps: seq<Step>, i: nat, k: nat)
    requires IsRun(states, steps) && i < |states| && k < |states[i].db.outbox|
    ensures var (t, reply) := (states[i].db, states[i].db.outbox[k]);
            && t.Has(reply.inReplyTo)
            && reply.session == t.Row(reply.inReplyTo).session
            && reply.channel == t.Row(reply.inReplyTo).channel
  {
    RunKeepsInv(states, steps, i);
    assert ReplyOk(states[i].db, states[i].db.outbox[k]);
  }

  /** Where a row's attempt count comes from. */
  lemma AttemptsAreAccountedFor(states: seq<Sys>, steps: seq<Step>, i: nat, id: nat)
    requires IsRun(states, steps) && i < |states| && states[i].db.Has(id)
    ensures states[i].db.Row(id).attempts
         == Requeues(states[i].log, id) + Reclaims(states[i].log, id)
            + (if states[i].db.Row(id).status == Pending then 0 else 1)
  {
    RunKeepsInv(states, steps, i);
    assert Accounted(states[i].db, states[i].log, id);
  }

  /** However many workers share an attempt number, only one of their writes ever takes effect. */
  lemma AttemptResolvesAtMostOnce(states: seq<Sys>, steps: seq<Step>, i: nat, id: nat, attempt: nat)
    requires IsRun(states, steps) && i < |states|
    ensures Resolutions(states[i].log, id, attempt) <= 1
  {
    RunKeepsInv(states, steps, i);
    assert ResolvedOnce(states[i].db, states[i].log, id);
  }

  lemma {:induction false} RequeuesAreResolutions(log: seq<Effect>, id: nat)
    requires forall k :: 0 <= k < |log| && log[k].Requeue? ==> 1 <= log[k].attempt < JC.MAX_ATTEMPTS
    ensures Requeues(log, id) <= Resolutions(log, id, 1) + Resolutions(log, id, 2)
  {
    if log != [] {
      RequeuesAreResolutions(log[..|log| - 1], id);
    }
  }

  /** With three attempts allowed a message is put back for retry at most twice in any run. */
  lemma AtMostTwoRequeues(states: seq<Sys>, steps: seq<Step>, i: nat, id: nat)
    requires IsRun(states, steps) && i < |states|
    ensures Requeues(states[i].log, id) <= 2
  {
    RunKeepsInv(states, steps, i);
    RequeuesAreResolutions(states[i].log, id);
    AttemptResolvesAtMostOnce(states, steps, i, id, 1);
    AttemptResolvesAtMostOnce(states, steps, i, id, 2);
  }

  ghost predicate Reachable(s: Sys) {
    exists states, steps :: IsRun(states, steps) && states[|steps|] == s
  }

  lemma ReachNext(s: Sys, step: Step)
    requires Reachable(s)
    ensures Reachable(Apply(s, step))
  {
    hide Apply;
    var states, steps :| IsRun(states, steps) && states[|steps|] == s;
    assert IsRun(states + [Apply(s, step)], steps + [step]);
  }

  function SharedRow(attempts: nat, claimedAt: nat): InboundRow {
    NewRow("s", "", "m", "{}", 0).(status := Processing, attempts := attempts,
                                   leaseUntil := Some(LeaseText(claimedAt, JC.INBOUND_LEASE)))
  }

  lemma TwoWorkersArrive()
    ensures Reachable(Sys(Tables([NewRow("s", "", "m", "{}", 0)], []),
                          map[1 := Worker("s", Ready), 2 := Worker("s", Ready)], {}, []))
  {
    hide TimeText.Format;
    assert IsRun([INIT], []);
    ReachNext(INIT, Receive("s", "", "m", "{}", 0));
    var s1 := INIT.(db := Tables([NewRow("s", "", "m", "{}", 0)], []));
    ReachNext(s1, Start(1, "s"));
    var s2 := s1.(workers := map[1 := Worker("s", Ready)]);
    ReachNext(s2, Start(2, "s"));
  }

  lemma SlowWorkerClaims()
    ensures Reachable(Sys(Tables([SharedRow(1, 0)], []),
                          map[1 := Worker("s", Claimed(1)), 2 := Worker("s", Ready)], {}, [Claim(1, 1, false)]))
  {
    hide TimeText.Format;
    TwoWorkersArrive();
    var row := NewRow("s", "", "m", "{}", 0);
    HeadIsUnique([row], "s", 1);
    ReachNext(Sys(Tables([row], []), map[1 := Worker("s", Ready), 2 := Worker("s", Ready)], {}, []), ClaimStep(1, 0));
  }

  /** A second after the lease of a claim at time 0 has run out. */
  const LATER: nat := JC.INBOUND_LEASE + TimeText.NANOS_PER_SECOND

  lemma OtherWorkerReclaims()
    ensures Reachable(Sys(Tables([SharedRow(2, LATER)], []),
                          map[1 := Worker("s", Claimed(1)), 2 := Worker("s", Claimed(1))], {},
                          [Claim(1, 1, false), Claim(1, 2, true)]))
  {
    hide TimeText.Format;
    SlowWorkerClaims();
    var row := SharedRow(1, 0);
    HeadIsUnique([row], "s", 1);
    assert TimeText.FourDigitYear(JC.INBOUND_LEASE) && TimeText.FourDigitYear(LATER);
    TimeText.DueByTextWithinASecond(JC.INBOUND_LEASE, LATER);
    ReachNext(Sys(Tables([row], []), map[1 := Worker("s", Claimed(1)), 2 := Worker("s", Ready)], {},
                  [Claim(1, 1, false)]),
              ClaimStep(2, LATER));
  }

  /** Two workers can hold the same attempt: the first stalls between its claim and its read until the lease runs out,
      the second takes the message over, and then both read the same attempt number. */
  lemma AttemptsCanBeShared()
    ensures exists s ::
              && Reachable(s) && s.workers.Keys == {1, 2}
              && s.workers[1].phase == s.workers[2].phase
                 == Handling(ClaimedRow(1, 2, "s", "", "m", "{}", TimeText.Format(0)), false)
  {
    hide TimeText.Format;
    OtherWorkerReclaims();
    var log := [Claim(1, 1, false), Claim(1, 2, true)];
    var t := Tables([SharedRow(2, LATER)], []);
    var s := Sys(t, map[1 := Worker("s", Claimed(1)), 2 := Worker("s", Claimed(1))], {}, log);
    ReachNext(s, ReadStep(1));
    ReachNext(Apply(s, ReadStep(1)), ReadStep(2));
  }

  // ---------- replies are exactly what the effective writes said ----------

  /** Message id and text of each effective completion or failure, in order. */
  function Answers(log: seq<Effect>): seq<(nat, string)> {
    if log == [] then []
    else
      var e := log[|log| - 1];
      Answers(log[..|log| - 1]) + (if e.Finish? then [(e.id, e.reply)] else [])
  }

  function Delivered(outbox: seq<OutboxRow>): seq<(nat, string)> {
    if outbox == [] then []
    else
      var row := outbox[|outbox| - 1];
      Delivered(outbox[..|outbox| - 1]) + [(row.inReplyTo, row.text)]
  }

  ghost predicate Mirrors(t: Tables, log: seq<Effect>) {
    && Delivered(t.outbox) == Answers(log)
    && (forall k :: 0 <= k < |log| && log[k].Finish? ==>
          t.Has(log[k].id) && t.Row(log[k].id).status == (if log[k].failed then Failed else Done))
  }

  lemma MirrorFinish(s: Sys, session: string, job: Job, reply: string, now: nat, failure: Option<string>)
    requires Mirrors(s.db, s.log)
    ensures var (t, outboxId) := TxFinish(s.db, session, job.channel, reply, job.id, job.attempt, now, failure);
            if outboxId != 0 then Mirrors(t, s.log + [Finish(job.id, job.attempt, reply, failure.Some?)])
            else Mirrors(t, s.log)
  {
    hide TimeText.Format, GoStrings.TrimSpace;
    var (t, outboxId) := TxFinish(s.db, session, job.channel, reply, job.id, job.attempt, now, failure);
    if outboxId != 0 {
      var e := Finish(job.id, job.attempt, reply, failure.Some?);
      assert (s.log + [e])[..|s.log|] == s.log;
      assert t.outbox[..|s.db.outbox|] == s.db.outbox;
    }
  }

  /** Steps that write no reply and leave finished rows alone. */
  lemma QuietMirrors(s: Sys, s': Sys)
    requires Mirrors(s.db, s.log) && s'.db.outbox == s.db.outbox && Settled(s.db, s'.db)
    requires s'.log == s.log || (|s'.log| == |s.log| + 1 && s'.log[..|s.log|] == s.log && !s'.log[|s.log|].Finish?)
    ensures Mirrors(s'.db, s'.log)
  {
  }

  predicate Writes(s: Sys, step: Step) {
    step.WriteStep? && step.worker in s.workers && s.workers[step.worker].phase.Deciding?
  }

  lemma OthersWriteNoReply(s: Sys, step: Step)
    requires !Writes(s, step)
    ensures var s' := Apply(s, step);
            && s'.db.outbox == s.db.outbox
            && (s'.log == s.log
                || (|s'.log| == |s.log| + 1 && s'.log[..|s.log|] == s.log && !s'.log[|s.log|].Finish?))
  {
    hide TimeText.Format, GoStrings.TrimSpace, HeadId, Claimable;
  }

  lemma WriteMirrors(s: Sys, w: nat, job: Job, action: JC.Action, now: nat)
    requires Mirrors(s.db, s.log) && w in s.workers && Settled(s.db, ApplyWrite(s, w, job, action, now).db)
    ensures Mirrors(ApplyWrite(s, w, job, action, now).db, ApplyWrite(s, w, job, action, now).log)
  {
    hide TimeText.Format, GoStrings.TrimSpace, TxFinish, Mirrors;
    var session := s.workers[w].session;
    match action
    case Complete(reply) => MirrorFinish(s, session, job, reply, now, None);
    case Fail(cause) => MirrorFinish(s, session, job, JC.FailureReply(job.id, cause), now, Some(cause));
    case _ => QuietMirrors(s, ApplyWrite(s, w, job, action, now));
  }

  lemma StepMirrors(s: Sys, step: Step)
    requires Mirrors(s.db, s.log)
    ensures Mirrors(Apply(s, step).db, Apply(s, step).log)
  {
    hide Mirrors, ApplyWrite, Settled;
    StepSettles(s, step);
    if Writes(s, step) {
      WriteMirrors(s, step.worker, s.workers[step.worker].phase.job, s.workers[step.worker].phase.action, step.now);
    } else {
      OthersWriteNoReply(s, step);
      hide Apply;
      QuietMirrors(s, Apply(s, step));
    }
  }

  /** The reply table is exactly the answers of the writes that passed the fence, in that order, and a message is
      failed exactly when the write that finished it was a failure. */
  lemma {:induction false} OutboxIsTheAnswers(states: seq<Sys>, steps: seq<Step>, i: nat)
    requires IsRun(states, steps) && i < |states|
    ensures Mirrors(states[i].db, states[i].log)
  {
    hide Apply;
    if i > 0 {
      OutboxIsTheAnswers(states, steps, i - 1);
      StepMirrors(states[i - 1], steps[i - 1]);
    }
  }
}
