/** When the queue moves: what due times, leases and heartbeats guarantee over stretches of a run. */
module GatewayTiming {
  import opened Wrappers
  import opened GatewayState
  import opened GatewayProtocol
  import GoStrings
  import JC = JobCompleter
  import TimeText

  const SECOND: nat := TimeText.NANOS_PER_SECOND

  // ---------- what one step does to one row ----------

  /** A claim that takes this row. */
  predicate Takes(s: Sys, step: Step, id: nat) {
    && ClaimsIn(s, step).Some?
    && id != 0 && TxClaim(s.db, ClaimsIn(s, step).value, step.now, JC.INBOUND_LEASE).1 == id
  }

  /** The session in which the step tries to claim, if it does. */
  function ClaimsIn(s: Sys, step: Step): Option<string> {
    if step.ClaimStep? && step.worker in s.workers && s.workers[step.worker].phase.Ready?
    then Some(s.workers[step.worker].session) else None
  }

  /** The clock of a heartbeat for this attempt at this row, if the step is one. */
  function Renewal(s: Sys, step: Step, id: nat, attempt: nat): Option<nat> {
    match step
    case Beat(w, now) =>
      if w in s.workers && s.workers[w].phase.Handling? && s.workers[w].phase.job.id == id
         && s.workers[w].phase.job.attempt == attempt
      then Some(now) else None
    case LateBeat(i, a, now) => if (i, a) in s.issued && i == id && a == attempt then Some(now) else None
    case _ => None
  }

  function LeasedUntil(now: nat): Option<string> {
    Some(TimeText.Format(now + JC.INBOUND_LEASE))
  }

  /** A row in process is put back or finished under the same attempt. */
  ghost predicate Resolved(r: InboundRow, r': InboundRow) {
    && r.status == Processing && r'.status != Processing
    && r'.session == r.session && r'.attempts == r.attempts
    && (r'.nextAttemptAt == r.nextAttemptAt || (r'.nextAttemptAt.Some? && TimeText.IsStamp(r'.nextAttemptAt.value)))
  }

  ghost predicate Moves(s: Sys, step: Step, id: nat, r: InboundRow, r': InboundRow) {
    if Takes(s, step, id) then
      && r.Active()
      && r' == r.(status := Processing, attempts := r.attempts + 1, leaseUntil := LeasedUntil(step.now),
                  processedAt := None)
    else if r.status == Processing && Renewal(s, step, id, r.attempts).Some? then
      r' == r.(leaseUntil := LeasedUntil(Renewal(s, step, id, r.attempts).value))
    else r' == r || Resolved(r, r')
  }

  lemma StepMovesRow(s: Sys, step: Step, id: nat)
    requires s.db.Has(id)
    ensures Apply(s, step).db.Has(id) && Moves(s, step, id, s.db.Row(id), Apply(s, step).db.Row(id))
  {
    hide TimeText.Format, GoStrings.TrimSpace, HeadId, Claimable, JC.FailureReply;
    match step
    case ClaimStep(w, now) => ClaimMovesRow(s, step, id);
    case Beat(w, now) =>
    case LateBeat(i, a, now) =>
    case WriteStep(w, now) =>
      if w in s.workers && s.workers[w].phase.Deciding? {
        WriteMovesRow(s, w, s.workers[w].phase.job, s.workers[w].phase.action, now, id);
      }
    case _ =>
  }

  lemma ClaimMovesRow(s: Sys, step: Step, id: nat)
    requires s.db.Has(id) && step.ClaimStep?
    ensures Apply(s, step).db.Has(id) && Moves(s, step, id, s.db.Row(id), Apply(s, step).db.Row(id))
  {
    hide TimeText.Format, HeadId, Claimable;
  }

  lemma WriteMovesRow(s: Sys, w: nat, job: Job, action: JC.Action, now: nat, id: nat)
    requires w in s.workers && s.db.Has(id)
    ensures var s' := ApplyWrite(s, w, job, action, now);
            s'.db.Has(id) && (s'.db.Row(id) == s.db.Row(id) || Resolved(s.db.Row(id), s'.db.Row(id)))
  {
    hide TimeText.Format, GoStrings.TrimSpace, JC.FailureReply;
  }

  lemma StepAddsRow(s: Sys, step: Step, id: nat)
    requires !s.db.Has(id) && Apply(s, step).db.Has(id)
    ensures StampsOk(Apply(s, step).db.Row(id))
  {
    hide TimeText.Format, GoStrings.TrimSpace, HeadId, Claimable, JC.FailureReply;
  }

  // ---------- stored times are printed instants ----------

  ghost predicate StampsOk(row: InboundRow) {
    && row.nextAttemptAt.Some? && TimeText.IsStamp(row.nextAttemptAt.value)
    && (row.status == Processing ==> row.leaseUntil.Some? && TimeText.IsStamp(row.leaseUntil.value))
  }

  lemma MoveKeepsStamps(s: Sys, step: Step, id: nat, r: InboundRow, r': InboundRow)
    requires StampsOk(r) && Moves(s, step, id, r, r')
    ensures StampsOk(r')
  {
    hide TimeText.Format, TxClaim;
  }

  lemma {:induction false} StoredTimesAreStamps(states: seq<Sys>, steps: seq<Step>, i: nat, id: nat)
    requires IsRun(states, steps) && i < |states| && states[i].db.Has(id)
    ensures StampsOk(states[i].db.Row(id))
  {
    hide Apply, StampsOk, Moves;
    if i > 0 {
      var (s, step) := (states[i - 1], steps[i - 1]);
      if s.db.Has(id) {
        StoredTimesAreStamps(states, steps, i - 1, id);
        StepMovesRow(s, step, id);
        MoveKeepsStamps(s, step, id, s.db.Row(id), states[i].db.Row(id));
      } else {
        StepAddsRow(s, step, id);
      }
    }
  }

  // ---------- one claim ----------

  /** The time the head of a queue waits for: its due time, or the end of its lease. */
  ghost predicate WaitsFor(row: InboundRow, due: nat) {
    || (row.status == Pending && row.nextAttemptAt == Some(TimeText.Format(due)))
    || (row.status == Processing && row.leaseUntil == Some(TimeText.Format(due)))
  }

  /** A claim fails until a second before that time, succeeds from a second after it, and in between goes by the
      text. */
  ghost predicate ClaimsOnTime(t: Tables, session: string, due: nat, now: nat, duration: int) {
    var (t', id) := TxClaim(t, session, now, duration);
    && (now + SECOND <= due ==> (t', id) == (t, 0))
    && (due + SECOND <= now ==> id == HeadId(t.inbound, session))
    && (id != 0 <==> TimeText.TextLE(TimeText.Format(due), TimeText.Format(now)))
  }

  lemma ClaimTiming(t: Tables, session: string, due: nat, now: nat, duration: int)
    requires TimeText.FourDigitYear(due) && TimeText.FourDigitYear(now)
    requires HeadId(t.inbound, session) != 0 && WaitsFor(t.Row(HeadId(t.inbound, session)), due)
    ensures ClaimsOnTime(t, session, due, now, duration)
  {
    hide TimeText.Format, HeadId, TimeText.TextLess, TimeText.FourDigitYear;
    TimeText.DueByTextWithinASecond(due, now);
  }

  lemma StampOfHead(row: InboundRow) returns (due: nat)
    requires StampsOk(row) && row.Active()
    ensures WaitsFor(row, due)
  {
    var stamp := if row.status == Pending then row.nextAttemptAt.value else row.leaseUntil.value;
    due :| stamp == TimeText.Format(due);
  }

  /** In every reachable state the queue moves on time: its head waits for some instant, and a claim comes through at
      that instant, give or take a second. */
  lemma QueueMovesOnTime(states: seq<Sys>, steps: seq<Step>, i: nat, session: string, now: nat)
    requires IsRun(states, steps) && i < |states| && TimeText.FourDigitYear(now)
    requires HeadId(states[i].db.inbound, session) != 0
    ensures exists due ::
              && WaitsFor(states[i].db.Row(HeadId(states[i].db.inbound, session)), due)
              && (TimeText.FourDigitYear(due) ==>
                    ClaimsOnTime(states[i].db, session, due, now, JC.INBOUND_LEASE))
  {
    hide TimeText.Format, TimeText.FourDigitYear, HeadId, ClaimsOnTime;
    var t := states[i].db;
    var head := t.Row(HeadId(t.inbound, session));
    StoredTimesAreStamps(states, steps, i, HeadId(t.inbound, session));
    var due := StampOfHead(head);
    if TimeText.FourDigitYear(due) {
      ClaimTiming(t, session, due, now, JC.INBOUND_LEASE);
    }
  }

  /** A row that has been claimed and is not finished is the head of its queue, so that a claim before its time, or in
      another session, does not take it. */
  lemma EarlyClaimFails(s: Sys, step: Step, id: nat, due: nat)
    requires InvDb(s.db) && s.db.Has(id) && Touched(s.db.Row(id)) && s.db.Row(id).Active()
    requires WaitsFor(s.db.Row(id), due) && TimeText.FourDigitYear(due)
    requires ClaimsIn(s, step) == Some(s.db.Row(id).session) ==>
               TimeText.FourDigitYear(step.now) && step.now + SECOND <= due
    ensures !Takes(s, step, id)
  {
    hide TimeText.Format, TimeText.FourDigitYear, HeadId;
    assert Touched(s.db.inbound[id - 1]);
    HeadIsUnique(s.db.inbound, s.db.Row(id).session, id);
    hide InvDb, WaitsFor, Claimable;
    if ClaimsIn(s, step) == Some(s.db.Row(id).session) {
      ClaimTiming(s.db, s.db.Row(id).session, due, step.now, JC.INBOUND_LEASE);
    }
  }

  // ---------- retries ----------

  /** Put back for retry, and due at `next`. */
  ghost predicate Parked(row: InboundRow, next: nat) {
    row.status == Pending && row.attempts > 0 && row.nextAttemptAt == Some(TimeText.Format(next))
  }

  /** An effective retry parks its row until the backoff has passed. */
  lemma RetryParks(states: seq<Sys>, steps: seq<Step>, i: nat, w: nat, job: Job, cause: string, delay: nat, now: nat)
    requires IsRun(states, steps) && i < |steps| && steps[i] == WriteStep(w, now) && w in states[i].workers
    requires states[i].workers[w].phase == Deciding(job, JC.Retry(cause, delay))
    requires Holds(states[i].db, job.id, job.attempt)
    ensures states[i + 1].db.Has(job.id) && Parked(states[i + 1].db.Row(job.id), now + delay)
  {
    hide TimeText.Format, GoStrings.TrimSpace;
    RunKeepsInv(states, steps, i);
    assert RowOk(states[i].db.Row(job.id));
  }

  /** All attempts to claim in the session between two states read a clock at least a second before `due`. */
  ghost predicate ClaimsAreEarly(states: seq<Sys>, steps: seq<Step>, i: nat, j: nat, session: string, due: nat)
    requires |states| == |steps| + 1
  {
    forall k {:trigger steps[k]} :: i <= k < j && k < |steps| && ClaimsIn(states[k], steps[k]) == Some(session) ==>
      TimeText.FourDigitYear(steps[k].now) && steps[k].now + SECOND <= due
  }

  /** While a row is parked, and for however long the claims in its session are early, the row stays as it is and no
      later message of the session is touched; once it is due, a claim takes it and nothing else. */
  lemma {:induction false} RetryHoldsTheSession(states: seq<Sys>, steps: seq<Step>, i: nat, j: nat, id: nat, next: nat,
                                                now: nat)
    requires IsRun(states, steps) && i <= j < |states| && states[i].db.Has(id)
    requires Parked(states[i].db.Row(id), next) && TimeText.FourDigitYear(next) && TimeText.FourDigitYear(now)
    requires ClaimsAreEarly(states, steps, i, j, states[i].db.Row(id).session, next)
    ensures states[j].db.Has(id) && states[j].db.Row(id) == states[i].db.Row(id)
    ensures forall k ::
              id <= k < |states[j].db.inbound| && states[j].db.inbound[k].session == states[i].db.Row(id).session ==>
                !Touched(states[j].db.inbound[k])
    ensures next + SECOND <= now ==>
              TxClaim(states[j].db, states[i].db.Row(id).session, now, JC.INBOUND_LEASE).1 == id
    decreases j - i
  {
    hide TimeText.Format, TimeText.FourDigitYear, HeadId, Apply, Takes, TxClaim;
    if i < j {
      RetryHoldsTheSession(states, steps, i, j - 1, id, next, now);
      RunKeepsInv(states, steps, j - 1);
      EarlyClaimFails(states[j - 1], steps[j - 1], id, next);
      StepMovesRow(states[j - 1], steps[j - 1], id);
    }
    RunKeepsInv(states, steps, j);
    ParkedRowIsNext(states[j].db, id, next, now);
  }

  lemma ParkedRowIsNext(t: Tables, id: nat, next: nat, now: nat)
    requires InvDb(t) && t.Has(id) && Parked(t.Row(id), next)
    requires TimeText.FourDigitYear(next) && TimeText.FourDigitYear(now)
    ensures forall k :: id <= k < |t.inbound| && t.inbound[k].session == t.Row(id).session ==> !Touched(t.inbound[k])
    ensures next + SECOND <= now ==> TxClaim(t, t.Row(id).session, now, JC.INBOUND_LEASE).1 == id
  {
    hide TimeText.Format, TimeText.FourDigitYear, HeadId;
    assert Touched(t.inbound[id - 1]);
    HeadIsUnique(t.inbound, t.Row(id).session, id);
    ClaimTiming(t, t.Row(id).session, next, now, JC.INBOUND_LEASE);
  }

  // ---------- leases and heartbeats ----------

  /** The clock of the last renewal before state k, or `first` if there was none since state i. */
  function LastBeat(states: seq<Sys>, steps: seq<Step>, i: nat, k: nat, id: nat, attempt: nat, first: nat): nat
    requires |states| == |steps| + 1 && i <= k < |states|
    decreases k - i
  {
    if k == i then first
    else match Renewal(states[k - 1], steps[k - 1], id, attempt)
         case Some(now) => now
         case None => LastBeat(states, steps, i, k - 1, id, attempt, first)
  }

  /** All attempts to claim in the session between two states read a clock at most `slack` after the last renewal. */
  ghost predicate BeatsKeepUp(states: seq<Sys>, steps: seq<Step>, i: nat, j: nat, id: nat, attempt: nat, first: nat,
                              session: string, slack: nat)
    requires |states| == |steps| + 1
  {
    forall k {:trigger steps[k]} :: i <= k < j && k < |steps| && ClaimsIn(states[k], steps[k]) == Some(session) ==>
      var beat := LastBeat(states, steps, i, k, id, attempt, first);
      TimeText.FourDigitYear(steps[k].now) && steps[k].now <= beat + slack
  }

  /** All leases in the stretch end in a four-digit year. */
  ghost predicate LeasesPrintable(states: seq<Sys>, steps: seq<Step>, i: nat, j: nat, id: nat, attempt: nat, first: nat)
    requires |states| == |steps| + 1
  {
    forall k :: i <= k < j && k < |states| ==>
      TimeText.FourDigitYear(LastBeat(states, steps, i, k, id, attempt, first) + JC.INBOUND_LEASE)
  }

  /** The first state from i on, up to j, in which the row is no longer in process under this attempt. */
  function FirstLoss(states: seq<Sys>, i: nat, j: nat, id: nat, attempt: nat): (m: nat)
    requires i <= j < |states|
    ensures i <= m <= j && (m < j ==> !Holds(states[m].db, id, attempt))
    ensures forall k :: i <= k < m ==> Holds(states[k].db, id, attempt)
    decreases j - i
  {
    if i == j || !Holds(states[i].db, id, attempt) then i else FirstLoss(states, i + 1, j, id, attempt)
  }

  /** In process under this attempt, with a lease that counts from the last renewal. */
  ghost predicate LeasedBy(s: Sys, id: nat, attempt: nat, beat: nat) {
    Holds(s.db, id, attempt) && s.db.Row(id).leaseUntil == LeasedUntil(beat)
  }

  /** A claim that takes a row starts its lease. */
  lemma ClaimStartsLease(states: seq<Sys>, steps: seq<Step>, i: nat, id: nat)
    requires IsRun(states, steps) && i < |steps| && states[i].db.Has(id) && Takes(states[i], steps[i], id)
    ensures LeasedBy(states[i + 1], id, states[i].db.Row(id).attempts + 1, steps[i].now)
  {
    hide Apply, Takes, TimeText.Format;
    StepMovesRow(states[i], steps[i], id);
  }

  lemma LeasedHolds(s: Sys, id: nat, attempt: nat, beat: nat)
    requires LeasedBy(s, id, attempt, beat)
    ensures s.db.Has(id) && s.db.Row(id).attempts == attempt
  {
  }

  lemma StepKeepsLease(s: Sys, step: Step, id: nat, attempt: nat, beat: nat)
    requires Inv(s) && LeasedBy(s, id, attempt, beat) && TimeText.FourDigitYear(beat + JC.INBOUND_LEASE)
    requires ClaimsIn(s, step) == Some(s.db.Row(id).session) ==>
               TimeText.FourDigitYear(step.now) && step.now + SECOND <= beat + JC.INBOUND_LEASE
    ensures var s' := Apply(s, step);
            && s'.db.Has(id) && s'.db.Row(id).session == s.db.Row(id).session && s'.db.Row(id).attempts == attempt
            && (Holds(s'.db, id, attempt) ==>
                  var renewal := Renewal(s, step, id, attempt);
                  LeasedBy(s', id, attempt, if renewal.Some? then renewal.value else beat))
  {
    hide TimeText.Format, TimeText.FourDigitYear, HeadId, Apply, Takes, TxClaim, InvDb, InvLog;
    EarlyClaimFails(s, step, id, beat + JC.INBOUND_LEASE);
    StepMovesRow(s, step, id);
  }

  lemma {:induction false} LeaseCountsFromLastBeat(states: seq<Sys>, steps: seq<Step>, i: nat, j: nat, id: nat,
                                                   attempt: nat, first: nat, session: string, slack: nat)
    requires IsRun(states, steps) && i <= j < |states| && LeasedBy(states[i], id, attempt, first)
    requires session == states[i].db.Row(id).session && slack + SECOND <= JC.INBOUND_LEASE
    requires BeatsKeepUp(states, steps, i, j, id, attempt, first, session, slack)
    requires LeasesPrintable(states, steps, i, j, id, attempt, first)
    requires forall k :: i <= k < j ==> Holds(states[k].db, id, attempt)
    ensures states[j].db.Has(id) && states[j].db.Row(id).session == session && states[j].db.Row(id).attempts == attempt
    ensures Holds(states[j].db, id, attempt) ==>
              LeasedBy(states[j], id, attempt, LastBeat(states, steps, i, j, id, attempt, first))
    decreases j - i
  {
    hide TimeText.Format, TimeText.FourDigitYear, Apply, LeasedBy, Inv, Renewal, Holds, HeadId, TxClaim, ClaimsIn;
    if i < j {
      LeaseCountsFromLastBeat(states, steps, i, j - 1, id, attempt, first, session, slack);
      RunKeepsInv(states, steps, j - 1);
      StepKeepsLease(states[j - 1], steps[j - 1], id, attempt, LastBeat(states, steps, i, j - 1, id, attempt, first));
    } else {
      LeasedHolds(states[i], id, attempt, first);
    }
  }

  /** As long as every claim in the session comes at least a second before the lease that counts from the last renewal
      has run out, nobody else takes the message: it stays in process under its attempt until it is put back or finished
      under that attempt. */
  lemma LeaseHoldsTheMessage(states: seq<Sys>, steps: seq<Step>, i: nat, j: nat, id: nat, attempt: nat, first: nat)
    requires IsRun(states, steps) && i <= j < |states| && LeasedBy(states[i], id, attempt, first)
    requires BeatsKeepUp(states, steps, i, j, id, attempt, first, states[i].db.Row(id).session,
                         JC.INBOUND_LEASE - SECOND)
    requires LeasesPrintable(states, steps, i, j, id, attempt, first)
    ensures var m := FirstLoss(states, i, j, id, attempt);
            && states[m].db.Has(id) && states[m].db.Row(id).attempts == attempt
            && (!Holds(states[m].db, id, attempt) ==> states[m].db.Row(id).status != Processing)
  {
    LeaseCountsFromLastBeat(states, steps, i, FirstLoss(states, i, j, id, attempt), id, attempt, first,
                            states[i].db.Row(id).session, JC.INBOUND_LEASE - SECOND);
  }

  /** Heartbeats at most one interval apart keep the message, over any number of beats: if no claim in the session comes
      later than one interval after the last beat, nobody else takes it. */
  lemma HeartbeatsKeepTheMessage(states: seq<Sys>, steps: seq<Step>, i: nat, j: nat, id: nat, attempt: nat, first: nat)
    requires IsRun(states, steps) && i <= j < |states| && LeasedBy(states[i], id, attempt, first)
    requires BeatsKeepUp(states, steps, i, j, id, attempt, first, states[i].db.Row(id).session,
                         JC.HeartbeatInterval(JC.INBOUND_LEASE))
    requires LeasesPrintable(states, steps, i, j, id, attempt, first)
    ensures var m := FirstLoss(states, i, j, id, attempt);
            && states[m].db.Has(id) && states[m].db.Row(id).attempts == attempt
            && (!Holds(states[m].db, id, attempt) ==> states[m].db.Row(id).status != Processing)
  {
    hide TimeText.FourDigitYear;
    LeaseHoldsTheMessage(states, steps, i, j, id, attempt, first);
  }

  /** Heartbeats come every third of the lease, every five seconds at the fastest and every thirty at the slowest. */
  lemma ThreeBeatsALease(lease: int)
    ensures var interval := JC.HeartbeatInterval(lease);
            && (JC.Seconds(15) <= lease <= JC.Seconds(90) ==> 3 * interval <= lease < 3 * interval + 3)
            && (0 < lease < JC.Seconds(15) ==> interval == 5 * SECOND)
            && (lease > JC.Seconds(90) ==> interval == 30 * SECOND)
            && (lease <= 0 ==> interval == 0)
  {
  }

  /** Which leases an interval covers: whoever claims takes the message exactly when the text says the lease has run
      out; up to the next beat that never happens with six seconds or more, and at the next beat always with four or
      less. */
  lemma IntervalCoversTheLease(t: Tables, id: nat, attempt: nat, at: nat, now: nat, lease: nat)
    requires InvDb(t) && Holds(t, id, attempt) && lease > 0
    requires TimeText.FourDigitYear(at + lease) && TimeText.FourDigitYear(now)
    ensures var (t', _) := TxRenew(t, id, attempt, at, lease);
            var (t'', claimed) := TxClaim(t', t.Row(id).session, now, lease);
            var nextBeat := at + JC.HeartbeatInterval(lease);
            && (claimed == id <==> TimeText.TextLE(TimeText.Format(at + lease), TimeText.Format(now)))
            && (claimed != id ==> (t'', claimed) == (t', 0))
            && (lease >= JC.Seconds(6) && now <= nextBeat ==> claimed != id)
            && (lease <= JC.Seconds(4) && now >= nextBeat ==> claimed == id)
  {
    var t' := TxRenew(t, id, attempt, at, lease).0;
    hide TimeText.Format, HeadId, TimeText.FourDigitYear;
    assert LeaseText(at, lease) == TimeText.Format(at + lease);
    assert Touched(t.inbound[id - 1]);
    HeadIsUnique(t'.inbound, t.Row(id).session, id);
    hide InvDb, Claimable, TimeText.TextLess, TimeText.TextLE;
    ClaimTiming(t', t.Row(id).session, at + lease, now, lease);
  }
}
