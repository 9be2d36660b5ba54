/** Tasks, their goroutines, Cancel calls and observers, interleaved.

    Every section that runs under the manager's lock is one step; so is every write to the task log and every call of
    a cancel function.  A task's goroutine is its phase.  Cancel functions a Cancel call has taken away but not yet
    called are in `held`.  Log writes are taken to succeed. */
module TaskProtocol {
  import opened Wrappers
  import opened TaskTree

  /** What Wait and Get report and what the log keeps. */
  datatype Snapshot = Snapshot(status: TaskStatus, error: string)

  datatype FnResult = Returned | ReturnedCanceled | ReturnedError(error: string)

  /** Where a task's goroutine stands.  `Logging` has read the record and is about to write the log. */
  datatype Phase =
    | Spawned
    | Logging(snapshot: Snapshot, next: Phase)
    | Starting
    | Installing
    | Installed(cancelSeen: bool)
    | Executing
    | Finished
    | Cascaded
    | Persisted
    | Closed
    | Gone

  datatype Sys = Sys(
    recs: map<nat, Record>,
    live: set<nat>,
    nextId: nat,
    phases: map<nat, Phase>,
    canceledContexts: set<nat>,
    held: multiset<nat>,
    log: map<nat, Snapshot>)

  datatype Step =
    | Spawn(parent: nat)
    | Advance(task: nat, result: FnResult)
    | CancelCall(task: nat)
    | InvokeCancel(task: nat)

  function SnapshotOf(r: Record): Snapshot {
    Snapshot(r.status, r.error)
  }

  predicate Terminal(s: Snapshot) {
    s.status != Running
  }

  function ApplySpawn(s: Sys, parent: nat): Sys {
    if SpawnCheck(s.recs, s.live, parent).Some? then s
    else
      var t := s.nextId + 1;
      s.(recs := s.recs[t := FreshRecord(parent)], live := s.live + {t}, nextId := t, phases := s.phases[t := Spawned])
  }

  function ApplyCancel(s: Sys, task: nat): Sys {
    var chosen := Subtree(s.recs, s.live, task);
    s.(recs := RequestCancel(s.recs, chosen), held := s.held + multiset(Cancellable(s.recs, chosen)))
  }

  function FinishedRecord(r: Record, result: FnResult): Record {
    match result
    case Returned => r.(cancelInstalled := false, status := Done)
    case ReturnedCanceled => r.(cancelInstalled := false, status := Canceled, error := "task canceled")
    case ReturnedError(e) => r.(cancelInstalled := false, status := Failed, error := e)
  }

  function WithPhase(s: Sys, t: nat, phase: Phase): Sys {
    s.(phases := s.phases[t := phase])
  }

  /** The next section of a task's goroutine: the spawner's log write, then runTask line by line. */
  function ApplyAdvance(s: Sys, t: nat, result: FnResult): Sys
    requires t in s.phases && t in s.recs
  {
    var r := s.recs[t];
    match s.phases[t]
    case Spawned => WithPhase(s, t, Logging(SnapshotOf(r), Starting))
    case Starting => WithPhase(s, t, Logging(SnapshotOf(r), Installing))
    case Logging(snapshot, next) => WithPhase(s, t, next).(log := s.log[t := snapshot])
    case Installing =>
      WithPhase(s, t, Installed(r.cancelRequested)).(recs := s.recs[t := r.(cancelInstalled := true)])
    case Installed(cancelSeen) =>
      WithPhase(s, t, Executing).(
        canceledContexts := if cancelSeen then s.canceledContexts + {t} else s.canceledContexts)
    case Executing => WithPhase(s, t, Finished).(recs := s.recs[t := FinishedRecord(r, result)])
    case Finished =>
      if r.status == Canceled then WithPhase(ApplyCancel(s, t), t, Cascaded) else WithPhase(s, t, Cascaded)
    case Cascaded => WithPhase(s, t, Logging(SnapshotOf(r), Persisted))
    case Persisted => WithPhase(s, t, Closed).(recs := s.recs[t := r.(done := true)])
    case Closed => WithPhase(s, t, Gone).(live := s.live - {t})
    case Gone => s
  }

  function Apply(s: Sys, step: Step): Sys {
    match step
    case Spawn(parent) => ApplySpawn(s, parent)
    case Advance(t, result) => if t in s.phases && t in s.recs then ApplyAdvance(s, t, result) else s
    case CancelCall(t) => ApplyCancel(s, t)
    case InvokeCancel(t) =>
      if t in s.held then s.(held := s.held - multiset{t}, canceledContexts := s.canceledContexts + {t}) else s
  }

  /** A fresh manager on a log that earlier processes may have filled; task numbers continue after theirs. */
  ghost predicate IsInit(s: Sys) {
    && s.recs == map[] && s.live == {} && s.phases == map[] && s.canceledContexts == {} && s.held == multiset{}
    && forall t :: t in s.log ==> t <= s.nextId
  }

  ghost predicate IsRun(states: seq<Sys>, steps: seq<Step>) {
    && |states| == |steps| + 1
    && IsInit(states[0])
    && forall i {:trigger steps[i]} :: 0 <= i < |steps| ==> states[i + 1] == Apply(states[i], steps[i])
  }

  // ---------- invariant ----------

  /** The goroutine has published its result in the record. */
  predicate HasResult(p: Phase) {
    match p
    case Finished => true
    case Cascaded => true
    case Logging(_, next) => next == Persisted
    case Persisted => true
    case Closed => true
    case Gone => true
    case _ => false
  }

  predicate LogIsFinal(p: Phase) {
    p == Persisted || p == Closed || p == Gone
  }

  predicate PhaseShape(p: Phase) {
    p.Logging? ==> p.next == Starting || p.next == Installing || p.next == Persisted
  }

  ghost predicate TaskOk(s: Sys, t: nat)
    requires t in s.recs && t in s.phases
  {
    var (r, p) := (s.recs[t], s.phases[t]);
    && PhaseShape(p)
    && (t in s.live <==> p != Gone)
    && (r.status != Running <==> HasResult(p))
    && (r.done <==> p == Closed || p == Gone)
    && (r.cancelInstalled <==> p.Installed? || p == Executing)
    && (p.Logging? ==> p.snapshot == SnapshotOf(r))
    && (LogIsFinal(p) ==> t in s.log && s.log[t] == SnapshotOf(r))
    && (t in s.log && Terminal(s.log[t]) ==> s.log[t] == SnapshotOf(r))
  }

  predicate WillBeCanceled(s: Sys, t: nat) {
    t in s.canceledContexts || t in s.held
  }

  ghost predicate NotLost(s: Sys, t: nat)
    requires t in s.recs && t in s.phases
  {
    s.recs[t].cancelRequested ==>
      && (s.phases[t] == Executing ==> WillBeCanceled(s, t))
      && (s.phases[t].Installed? ==> s.phases[t].cancelSeen || WillBeCanceled(s, t))
  }

  ghost predicate Inv(s: Sys) {
    && Tree(s.recs, s.live, s.nextId)
    && s.phases.Keys == s.recs.Keys
    && (forall t :: t in s.log ==> t <= s.nextId)
    && (forall t :: t in s.recs ==> TaskOk(s, t))
    && (forall t :: t in s.recs ==> NotLost(s, t))
  }

  lemma SpawnKeepsInv(s: Sys, parent: nat)
    requires Inv(s)
    ensures Inv(ApplySpawn(s, parent))
  {
    var s' := ApplySpawn(s, parent);
    if s' != s {
      forall t | t in s'.recs ensures TaskOk(s', t) && NotLost(s', t) {
        if t in s.recs { assert TaskOk(s, t) && NotLost(s, t); }
      }
    }
  }

  /** Requesting cancellation changes only the request flags. */
  lemma CancelKeepsInv(s: Sys, chosen: set<nat>)
    requires Inv(s)
    ensures Inv(s.(recs := RequestCancel(s.recs, chosen), held := s.held + multiset(Cancellable(s.recs, chosen))))
  {
    var s' := s.(recs := RequestCancel(s.recs, chosen), held := s.held + multiset(Cancellable(s.recs, chosen)));
    forall t | t in s'.recs ensures TaskOk(s', t) && NotLost(s', t) {
      assert TaskOk(s, t) && NotLost(s, t);
    }
  }

  /** A step of one goroutine that changes only its own phase, record, log row and context. */
  lemma OwnStepKeepsInv(s: Sys, s': Sys, t: nat)
    requires Inv(s) && t in s.recs && s'.recs.Keys == s.recs.Keys && s'.phases.Keys == s.phases.Keys
    requires s'.recs == s.recs[t := s'.recs[t]] && s'.phases == s.phases[t := s'.phases[t]]
    requires s'.recs[t].parent == s.recs[t].parent && s'.nextId == s.nextId && s'.held == s.held
    requires forall u :: u != t ==> (u in s'.live <==> u in s.live)
    requires s'.live <= s.live
    requires s.canceledContexts <= s'.canceledContexts
    requires forall u :: u != t ==> (u in s'.log <==> u in s.log) && (u in s.log ==> s'.log[u] == s.log[u])
    requires TaskOk(s', t) && NotLost(s', t)
    ensures Inv(s')
  {
    forall u | u in s'.recs ensures TaskOk(s', u) && NotLost(s', u) {
      if u != t { assert TaskOk(s, u) && NotLost(s, u); }
    }
  }

  lemma CascadeKeepsInv(s: Sys, t: nat)
    requires Inv(s) && t in s.recs && t in s.phases && s.phases[t] == Finished
    ensures Inv(WithPhase(ApplyCancel(s, t), t, Cascaded))
  {
    hide Subtree, RequestCancel, Cancellable, Tree;
    CancelKeepsInv(s, Subtree(s.recs, s.live, t));
    var mid := ApplyCancel(s, t);
    assert TaskOk(mid, t) && NotLost(mid, t);
    OwnStepKeepsInv(mid, WithPhase(mid, t, Cascaded), t);
  }

  lemma AdvanceKeepsTask(s: Sys, t: nat, result: FnResult)
    requires t in s.phases && t in s.recs && TaskOk(s, t) && NotLost(s, t)
    requires s.phases[t] == Finished ==> s.recs[t].status != Canceled
    ensures TaskOk(ApplyAdvance(s, t, result), t) && NotLost(ApplyAdvance(s, t, result), t)
  {
    hide ApplyCancel;
  }

  lemma AdvanceKeepsInv(s: Sys, t: nat, result: FnResult)
    requires Inv(s) && t in s.phases && t in s.recs
    ensures Inv(ApplyAdvance(s, t, result))
  {
    hide ApplyCancel, TaskOk, NotLost, Tree;
    if s.phases[t] == Finished && s.recs[t].status == Canceled {
      CascadeKeepsInv(s, t);
    } else {
      AdvanceKeepsTask(s, t, result);
      OwnStepKeepsInv(s, ApplyAdvance(s, t, result), t);
    }
  }

  lemma StepKeepsInv(s: Sys, step: Step)
    requires Inv(s)
    ensures Inv(Apply(s, step))
  {
    match step
    case Spawn(parent) => SpawnKeepsInv(s, parent);
    case Advance(t, result) => if t in s.phases && t in s.recs { AdvanceKeepsInv(s, t, result); }
    case CancelCall(t) => CancelKeepsInv(s, Subtree(s.recs, s.live, t));
    case InvokeCancel(t) =>
      var s' := Apply(s, step);
      forall u | u in s'.recs ensures TaskOk(s', u) && NotLost(s', u) {
        assert TaskOk(s, u) && NotLost(s, u);
      }
  }

  lemma {:induction false} RunKeepsInv(states: seq<Sys>, steps: seq<Step>, i: nat)
    requires IsRun(states, steps) && i < |states|
    ensures Inv(states[i])
  {
    hide Apply;
    if i > 0 {
      RunKeepsInv(states, steps, i - 1);
      StepKeepsInv(states[i - 1], steps[i - 1]);
    }
  }

  // ---------- main results ----------

  /** No cancellation is lost: a running function whose cancellation was requested has its context cancelled, or some
      Cancel call holds its cancel function and is about to call it. */
  lemma NoLostCancellation(states: seq<Sys>, steps: seq<Step>, i: nat, t: nat)
    requires IsRun(states, steps) && i < |states|
    requires t in states[i].recs && t in states[i].phases && states[i].phases[t] == Executing
    requires states[i].recs[t].cancelRequested
    ensures t in states[i].canceledContexts || t in states[i].held
  {
    RunKeepsInv(states, steps, i);
    assert NotLost(states[i], t);
  }

  /** A waiter released by the closing of the done channel reads a final status. */
  lemma WaitReturnsFinalStatus(states: seq<Sys>, steps: seq<Step>, i: nat, j: nat, t: nat)
    requires IsRun(states, steps) && i <= j < |states|
    requires t in states[i].recs && states[i].recs[t].done
    ensures t in states[j].recs && Terminal(SnapshotOf(states[j].recs[t]))
  {
    RunKeepsInv(states, steps, i);
    assert TaskOk(states[i], t);
    ResultsStay(states, steps, i, j, t);
  }

  /** What stays of a record from one state to a later one. */
  ghost predicate Kept(s: Sys, s': Sys, t: nat) {
    && (t in s.recs ==>
          && t in s'.recs && s'.recs[t].parent == s.recs[t].parent
          && (Terminal(SnapshotOf(s.recs[t])) ==> SnapshotOf(s'.recs[t]) == SnapshotOf(s.recs[t]))
          && (s.recs[t].done ==> s'.recs[t].done)
          && (s.recs[t].cancelRequested ==> s'.recs[t].cancelRequested)
          && (t !in s.live ==> t !in s'.live))
    && (t !in s.recs && t <= s.nextId ==> t !in s'.recs && t !in s'.live)
    && s.nextId <= s'.nextId
    && (t in s.log && Terminal(s.log[t]) ==> t in s'.log && s'.log[t] == s.log[t])
    && (t in s.log && t !in s.recs ==> t in s'.log && s'.log[t] == s.log[t])
  }

  lemma CancelKeeps(s: Sys, root: nat, t: nat)
    requires Tree(s.recs, s.live, s.nextId)
    ensures Kept(s, ApplyCancel(s, root), t)
  {
  }

  lemma AdvanceKeepsOwn(s: Sys, t: nat, result: FnResult)
    requires Tree(s.recs, s.live, s.nextId) && t in s.phases && t in s.recs && TaskOk(s, t)
    ensures Kept(s, ApplyAdvance(s, t, result), t)
  {
  }

  lemma AdvanceKeepsOther(s: Sys, u: nat, result: FnResult, t: nat)
    requires Tree(s.recs, s.live, s.nextId) && u in s.phases && u in s.recs && t != u
    ensures Kept(s, ApplyAdvance(s, u, result), t)
  {
    CancelKeeps(s, u, t);
    hide ApplyCancel, FinishedRecord;
  }

  lemma AdvanceKeeps(s: Sys, u: nat, result: FnResult, t: nat)
    requires Inv(s) && u in s.phases && u in s.recs
    ensures Kept(s, ApplyAdvance(s, u, result), t)
  {
    hide ApplyAdvance, Kept;
    if t == u {
      AdvanceKeepsOwn(s, t, result);
    } else {
      AdvanceKeepsOther(s, u, result, t);
    }
  }

  lemma StepKeeps(s: Sys, step: Step, t: nat)
    requires Inv(s)
    ensures Kept(s, Apply(s, step), t)
  {
    hide ApplyAdvance, ApplyCancel;
    match step
    case Advance(u, result) => if u in s.phases && u in s.recs { AdvanceKeeps(s, u, result, t); }
    case CancelCall(root) => CancelKeeps(s, root, t);
    case _ =>
  }

  lemma {:induction false} ResultsStay(states: seq<Sys>, steps: seq<Step>, i: nat, j: nat, t: nat)
    requires IsRun(states, steps) && i <= j < |states|
    ensures Kept(states[i], states[j], t)
    decreases j - i
  {
    RunKeepsInv(states, steps, i);
    if i < j {
      ResultsStay(states, steps, i, j - 1, t);
      RunKeepsInv(states, steps, j - 1);
      StepKeeps(states[j - 1], steps[j - 1], t);
    }
  }

  /** A look-up at time `look` finds the live record or not; the answer is read at a later time, from the record it
      found or from the log. */
  ghost function Observe(states: seq<Sys>, look: nat, read: nat, t: nat): Option<Snapshot>
    requires look < |states| && read < |states|
  {
    if t in states[look].live && t in states[read].recs then Some(SnapshotOf(states[read].recs[t]))
    else if t in states[look].live then None
    else if t in states[read].log then Some(states[read].log[t])
    else None
  }

  /** Once any Wait or Get has returned a final status, every Wait or Get that starts after that returns the same status
      and error, whichever of record and log either of them reads, and across the record's removal. */
  lemma FinalStatusIsStable(states: seq<Sys>, steps: seq<Step>, look: nat, read: nat, look': nat, read': nat, t: nat)
    requires IsRun(states, steps) && look <= read <= read' < |states| && look' <= read'
    requires Observe(states, look, read, t).Some? && Terminal(Observe(states, look, read, t).value)
    requires look' >= read
    ensures Observe(states, look', read', t) == Observe(states, look, read, t)
  {
    RunKeepsInv(states, steps, look);
    RunKeepsInv(states, steps, read);
    RunKeepsInv(states, steps, look');
    RunKeepsInv(states, steps, read');
    ResultsStay(states, steps, look, read, t);
    ResultsStay(states, steps, read, look', t);
    ResultsStay(states, steps, look', read', t);
    forall k | k in {look, read, look', read'} && t in states[k].recs ensures TaskOk(states[k], t) {
    }
  }

  /** A call of Cancel: from outside, or by a task's own goroutine once the task has ended as cancelled. */
  predicate Cancels(s: Sys, step: Step, root: nat) {
    || step == CancelCall(root)
    || (step.Advance? && step.task == root && root in s.phases && root in s.recs
        && s.phases[root] == Finished && s.recs[root].status == Canceled)
  }

  lemma CancelRequestsAll(s: Sys, step: Step, root: nat, t: nat, child: nat)
    requires Inv(s) && Cancels(s, step, root) && t in Subtree(s.recs, s.live, root)
    ensures var s' := Apply(s, step);
            && t in s'.recs && (s'.recs[t].cancelRequested || s'.recs[t].done)
            && (child in s'.recs ==> child in s.recs)
  {
    hide Under, Cancellable;
  }

  /** Everything that was under a task when it was cancelled stays cancelled or complete for ever, and nothing new is
      ever spawned under it. */
  lemma CancelledSubtreeStaysShut(states: seq<Sys>, steps: seq<Step>, i: nat, j: nat, root: nat, t: nat, child: nat)
    requires IsRun(states, steps) && i < j < |states| && Cancels(states[i], steps[i], root)
    requires t in Subtree(states[i].recs, states[i].live, root)
    ensures t in states[j].recs && (states[j].recs[t].cancelRequested || states[j].recs[t].done)
    ensures child in states[j].recs && states[j].recs[child].parent == t ==> child in states[i].recs
    decreases j
  {
    hide Apply, Subtree, Inv;
    RunKeepsInv(states, steps, j - 1);
    if i + 1 < j {
      CancelledSubtreeStaysShut(states, steps, i, j - 1, root, t, child);
      StepKeeps(states[j - 1], steps[j - 1], t);
      StepKeeps(states[j - 1], steps[j - 1], child);
      NoNewChild(states[j - 1], steps[j - 1], t, child);
    } else {
      CancelRequestsAll(states[i], steps[i], root, t, child);
    }
  }

  lemma AdvanceAddsNoRecord(s: Sys, u: nat, result: FnResult, t: nat)
    requires u in s.phases && u in s.recs
    ensures t in ApplyAdvance(s, u, result).recs <==> t in s.recs
  {
  }

  lemma NoNewChild(s: Sys, step: Step, t: nat, child: nat)
    requires Inv(s) && t in s.recs && (s.recs[t].cancelRequested || s.recs[t].done)
    ensures var s' := Apply(s, step);
            child in s'.recs && s'.recs[child].parent == t ==> child in s.recs && s.recs[child].parent == t
  {
    hide ApplyAdvance, Subtree, Cancellable;
    assert t != 0;
    StepKeeps(s, step, child);
    match step
    case Advance(u, result) => if u in s.phases && u in s.recs { AdvanceAddsNoRecord(s, u, result, child); }
    case _ =>
  }

  // ---------- a grandchild out of reach ----------

  ghost predicate Reachable(s: Sys) {
    exists states, steps :: IsRun(states, steps) && states[|steps|] == s
  }

  lemma ReachNext(s: Sys, step: Step)
    requires Reachable(s)
    ensures Reachable(Apply(s, step))
  {
    hide Apply;
    var states, steps :| IsRun(states, steps) && states[|steps|] == s;
    assert IsRun(states + [Apply(s, step)], steps + [step]);
  }

  /** The state of one task, everything else being as in `s`. */
  predicate At(s: Sys, s': Sys, t: nat, phase: Phase, r: Record) {
    && s'.recs == s.recs[t := r] && s'.phases == s.phases[t := phase]
    && s'.live == s.live && s'.nextId == s.nextId
  }

  /** What an uncancelled task that succeeds does next. */
  function NextOf(phase: Phase, r: Record): (Phase, Record) {
    match phase
    case Spawned => (Logging(SnapshotOf(r), Starting), r)
    case Starting => (Logging(SnapshotOf(r), Installing), r)
    case Logging(_, next) => (next, r)
    case Installing => (Installed(r.cancelRequested), r.(cancelInstalled := true))
    case Installed(_) => (Executing, r)
    case Executing => (Finished, FinishedRecord(r, Returned))
    case Finished => (Cascaded, r)
    case Cascaded => (Logging(SnapshotOf(r), Persisted), r)
    case Persisted => (Closed, r.(done := true))
    case _ => (Gone, r)
  }

  /** The number of steps before the task leaves the table. */
  function StepsLeft(phase: Phase): nat {
    match phase
    case Spawned => 12
    case Starting => 10
    case Installing => 8
    case Installed(_) => 7
    case Executing => 6
    case Finished => 5
    case Cascaded => 4
    case Persisted => 2
    case Closed => 1
    case Gone => 0
    case Logging(_, next) => if next == Starting then 11 else if next == Installing then 9 else 3
  }

  /** Not cancelled, and done once there is a result. */
  predicate Calm(phase: Phase, r: Record) {
    PhaseShape(phase) && r.status != Canceled && (HasResult(phase) ==> r.status == Done)
  }

  lemma CalmGoesOn(phase: Phase, r: Record)
    requires Calm(phase, r) && phase != Gone
    ensures Calm(NextOf(phase, r).0, NextOf(phase, r).1) && NextOf(phase, r).1.parent == r.parent
    ensures StepsLeft(NextOf(phase, r).0) < StepsLeft(phase)
  {
  }

  lemma Advances(s: Sys, s1: Sys, t: nat, phase: Phase, r: Record)
    requires At(s, s1, t, phase, r) && Calm(phase, r) && phase != Closed && phase != Gone
    ensures At(s, Apply(s1, Advance(t, Returned)), t, NextOf(phase, r).0, NextOf(phase, r).1)
  {
    hide ApplyCancel, FinishedRecord;
  }

  lemma LastAdvance(s: Sys, s1: Sys, t: nat, r: Record)
    requires At(s, s1, t, Closed, r)
    ensures var s' := Apply(s1, Advance(t, Returned));
            s'.live == s.live - {t} && s'.nextId == s.nextId && s'.recs == s.recs[t := r]
  {
  }

  /** A task that nobody cancels can run to its end and leave the table. */
  lemma {:induction false} RunsToItsEnd(s: Sys, s1: Sys, t: nat, phase: Phase, r: Record) returns (s': Sys)
    requires Reachable(s1) && At(s, s1, t, phase, r) && Calm(phase, r) && phase != Gone
    ensures Reachable(s') && s'.live == s.live - {t} && s'.nextId == s.nextId && t in s'.recs
    ensures s'.recs == s.recs[t := s'.recs[t]] && s'.recs[t].parent == r.parent && s'.recs[t].status == Done
    decreases StepsLeft(phase)
  {
    hide Reachable, Apply, At, NextOf, StepsLeft;
    ReachNext(s1, Advance(t, Returned));
    s' := Apply(s1, Advance(t, Returned));
    if phase == Closed {
      LastAdvance(s, s1, t, r);
    } else {
      Advances(s, s1, t, phase, r);
      CalmGoesOn(phase, r);
      assert NextOf(phase, r).0 != Gone by { OnlyClosedGoes(phase, r); }
      s' := RunsToItsEnd(s, s', t, NextOf(phase, r).0, NextOf(phase, r).1);
    }
  }

  lemma OnlyClosedGoes(phase: Phase, r: Record)
    requires PhaseShape(phase) && phase != Closed && phase != Gone
    ensures NextOf(phase, r).0 != Gone
  {
  }

  /** Task 1 has spawned task 2, which has spawned task 3. */
  lemma Generations() returns (s: Sys)
    ensures Reachable(s) && s.live == {1, 2, 3} && s.recs.Keys == {1, 2, 3} == s.phases.Keys
    ensures s.recs[1] == FreshRecord(0) && s.recs[2] == FreshRecord(1) && s.recs[3] == FreshRecord(2)
    ensures s.phases[2] == Spawned
  {
    var init := Sys(map[], {}, 0, map[], {}, multiset{}, map[]);
    assert IsRun([init], []);
    ReachNext(init, Spawn(0));
    var s1 := Sys(map[1 := FreshRecord(0)], {1}, 1, map[1 := Spawned], {}, multiset{}, map[]);
    assert Apply(init, Spawn(0)) == s1;
    ReachNext(s1, Spawn(1));
    var s2 := Sys(map[1 := FreshRecord(0), 2 := FreshRecord(1)], {1, 2}, 2, map[1 := Spawned, 2 := Spawned], {},
                  multiset{}, map[]);
    assert Apply(s1, Spawn(1)) == s2;
    ReachNext(s2, Spawn(2));
    s := Apply(s2, Spawn(2));
  }

  /** Once the parent has completed, cancelling the grandparent leaves the grandchild running. */
  lemma GrandchildEscapes()
    ensures exists s ::
              && Reachable(s) && {1, 2, 3} <= s.recs.Keys && s.recs[2].parent == 1 && s.recs[3].parent == 2
              && 1 in s.live && 3 in s.live && !s.recs[3].done
              && var s' := Apply(s, CancelCall(1));
                 1 in s'.recs && 3 in s'.recs && s'.recs[1].cancelRequested && !s'.recs[3].cancelRequested
  {
    var before := Generations();
    var s := RunsToItsEnd(before, before, 2, Spawned, FreshRecord(1));
    hide Reachable;
    assert !Under(s.recs, s.live, 1, 2) && !Under(s.recs, s.live, 1, 3) && Under(s.recs, s.live, 1, 1);
    var s' := Apply(s, CancelCall(1));
    assert 1 in s'.recs && s'.recs[1].cancelRequested;
    assert 3 in s'.recs && !s'.recs[3].cancelRequested;
  }
}
