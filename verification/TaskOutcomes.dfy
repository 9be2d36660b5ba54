/** How tasks end: what their functions' results become, and who is cancelled because of whom. */
module TaskOutcomes {
  import opened Wrappers
  import opened TaskTree
  import opened TaskProtocol

  // ---------- results ----------

  /** What everybody is told about a task whose function ended like this. */
  function Reported(result: FnResult): Snapshot {
    match result
    case Returned => Snapshot(Done, "")
    case ReturnedCanceled => Snapshot(Canceled, "task canceled")
    case ReturnedError(e) => Snapshot(Failed, e)
  }

  /** The step in which the task's function returns. */
  predicate Ends(s: Sys, step: Step, t: nat, result: FnResult) {
    step == Advance(t, result) && t in s.recs && t in s.phases && s.phases[t] == Executing
  }

  ghost predicate NoErrorYet(s: Sys) {
    forall t :: t in s.recs && s.recs[t].status == Running ==> s.recs[t].error == ""
  }

  lemma CancelKeepsNoError(s: Sys, root: nat)
    requires NoErrorYet(s)
    ensures NoErrorYet(ApplyCancel(s, root))
  {
    hide Subtree, Cancellable;
  }

  /** The one step of a goroutine that touches other tasks. */
  predicate Cascades(s: Sys, t: nat) {
    t in s.phases && t in s.recs && s.phases[t] == Finished && s.recs[t].status == Canceled
  }

  lemma AdvanceIsLocal(s: Sys, t: nat, result: FnResult)
    requires t in s.phases && t in s.recs
    ensures var s' := ApplyAdvance(s, t, result);
            if Cascades(s, t) then s' == WithPhase(ApplyCancel(s, t), t, Cascaded)
            else
              && t in s'.recs && s'.recs == s.recs[t := s'.recs[t]] && s'.held == s.held
              && s'.recs[t].cancelRequested == s.recs[t].cancelRequested
              && (s'.recs[t].status == Running ==> s.recs[t].status == Running && s'.recs[t].error == s.recs[t].error)
              && t in s'.phases && s'.phases == s.phases[t := s'.phases[t]]
  {
    hide ApplyCancel;
  }

  lemma AdvanceCancelsContext(s: Sys, t: nat, result: FnResult)
    requires t in s.phases && t in s.recs && PhaseShape(s.phases[t]) && !Cascades(s, t)
    ensures var s' := ApplyAdvance(s, t, result);
            && (s'.canceledContexts == s.canceledContexts
                || (s.phases[t] == Installed(true) && s'.canceledContexts == s.canceledContexts + {t}))
            && t in s'.phases && (s'.phases[t] == Installed(true) ==> s.recs[t].cancelRequested)
  {
    hide ApplyCancel;
  }

  lemma AdvanceKeepsNoError(s: Sys, t: nat, result: FnResult)
    requires NoErrorYet(s) && t in s.phases && t in s.recs
    ensures NoErrorYet(ApplyAdvance(s, t, result))
  {
    AdvanceIsLocal(s, t, result);
    CancelKeepsNoError(s, t);
    hide ApplyCancel, ApplyAdvance;
  }

  lemma StepKeepsNoError(s: Sys, step: Step)
    requires NoErrorYet(s)
    ensures NoErrorYet(Apply(s, step))
  {
    hide ApplyCancel, ApplyAdvance;
    match step
    case Advance(t, result) => if t in s.phases && t in s.recs { AdvanceKeepsNoError(s, t, result); }
    case CancelCall(root) => CancelKeepsNoError(s, root);
    case _ =>
  }

  lemma {:induction false} RunningHasNoError(states: seq<Sys>, steps: seq<Step>, i: nat)
    requires IsRun(states, steps) && i < |states|
    ensures NoErrorYet(states[i])
  {
    hide Apply;
    if i > 0 {
      RunningHasNoError(states, steps, i - 1);
      StepKeepsNoError(states[i - 1], steps[i - 1]);
    }
  }

  lemma EndIsRecorded(s: Sys, step: Step, t: nat, result: FnResult)
    requires Inv(s) && NoErrorYet(s) && Ends(s, step, t, result)
    ensures s.recs[t].status == Running
    ensures t in Apply(s, step).recs && SnapshotOf(Apply(s, step).recs[t]) == Reported(result)
  {
    assert TaskOk(s, t);
  }

  /** Every final status that a Wait or Get ever returns for a task says how its function ended: done without an error,
      cancelled, or failed with the function's own error. */
  lemma FinalStatusTellsTheResult(states: seq<Sys>, steps: seq<Step>, i: nat, t: nat, result: FnResult, look: nat,
                                  read: nat)
    requires IsRun(states, steps) && i < |steps| && Ends(states[i], steps[i], t, result)
    requires look <= read < |states|
    requires Observe(states, look, read, t).Some? && Terminal(Observe(states, look, read, t).value)
    ensures Observe(states, look, read, t) == Some(Reported(result))
  {
    hide Apply, Inv;
    RunKeepsInv(states, steps, i);
    RunningHasNoError(states, steps, i);
    EndIsRecorded(states[i], steps[i], t, result);
    RunKeepsInv(states, steps, look);
    RunKeepsInv(states, steps, read);
    ResultsStay(states, steps, look, read, t);
    FinalLogIsTheRecord(states[read], t);
    if read <= i {
      ResultsStay(states, steps, read, i, t);
    } else {
      ResultsStay(states, steps, i + 1, read, t);
    }
  }

  lemma FinalLogIsTheRecord(s: Sys, t: nat)
    requires Inv(s)
    ensures t in s.log ==> t <= s.nextId
    ensures t in s.recs && t in s.log && Terminal(s.log[t]) ==> s.log[t] == SnapshotOf(s.recs[t])
  {
    if t in s.recs { assert TaskOk(s, t); }
  }

  lemma StatusNeedsAnEnd(s: Sys, step: Step, t: nat)
    requires Inv(s) && t in Apply(s, step).recs && Apply(s, step).recs[t].status != Running
    ensures (t in s.recs && s.recs[t].status != Running) || exists result :: Ends(s, step, t, result)
  {
    hide Subtree, Cancellable;
    if step.Advance? && step.task == t && t in s.recs && s.recs[t].status == Running {
      assert s.phases[t] == Executing <==> Ends(s, step, t, step.result);
    }
  }

  /** And no task of this process has a final status before its function has ended. */
  lemma {:induction false} FinalStatusHasAnEnd(states: seq<Sys>, steps: seq<Step>, j: nat, t: nat)
    requires IsRun(states, steps) && j < |states| && t in states[j].recs && states[j].recs[t].status != Running
    ensures exists i, result :: 0 <= i < j && Ends(states[i], steps[i], t, result)
  {
    hide Apply, Inv;
    RunKeepsInv(states, steps, j - 1);
    StatusNeedsAnEnd(states[j - 1], steps[j - 1], t);
    if t in states[j - 1].recs && states[j - 1].recs[t].status != Running {
      FinalStatusHasAnEnd(states, steps, j - 1, t);
    } else {
      var result :| Ends(states[j - 1], steps[j - 1], t, result);
    }
  }

  // ---------- a cancelled task takes its subtree along ----------

  /** The step after the task's result has been published. */
  predicate LeavesFinished(s: Sys, step: Step, t: nat) {
    step.Advance? && step.task == t && t in s.recs && t in s.phases && s.phases[t] == Finished
  }

  predicate AskedOrDone(s: Sys, t: nat) {
    t in s.recs && (s.recs[t].cancelRequested || s.recs[t].done)
  }

  /** The goroutine has not come past the publication of its result. */
  predicate NotPast(s: Sys, t: nat) {
    t in s.phases && (s.phases[t] == Executing || s.phases[t] == Finished)
  }

  lemma StaysFinished(s: Sys, step: Step, t: nat)
    requires Inv(s) && t in s.phases && s.phases[t] == Finished && !LeavesFinished(s, step, t)
    ensures t in Apply(s, step).phases && Apply(s, step).phases[t] == Finished
  {
    assert t in s.recs && t <= s.nextId;
    hide Subtree, Cancellable, RequestCancel, ApplyAdvance, Inv, SpawnCheck;
    match step
    case Advance(u, result) => if u in s.phases && u in s.recs { OnlyOwnPhaseMoves(s, u, result, t); }
    case _ =>
  }

  lemma OnlyOwnPhaseMoves(s: Sys, u: nat, result: FnResult, t: nat)
    requires u in s.phases && u in s.recs && t != u && t in s.phases
    ensures t in ApplyAdvance(s, u, result).phases && ApplyAdvance(s, u, result).phases[t] == s.phases[t]
  {
    AdvanceIsLocal(s, u, result);
    hide ApplyAdvance, Subtree, Cancellable, RequestCancel;
  }

  lemma EndFinishes(s: Sys, step: Step, t: nat, result: FnResult)
    requires Ends(s, step, t, result)
    ensures t in Apply(s, step).phases && Apply(s, step).phases[t] == Finished
  {
  }

  lemma {:induction false} FinishedIsLeft(states: seq<Sys>, steps: seq<Step>, i: nat, j: nat, t: nat)
    requires IsRun(states, steps) && i <= j < |states|
    requires t in states[i].phases && states[i].phases[t] == Finished && !NotPast(states[j], t)
    ensures exists k :: i <= k < j && LeavesFinished(states[k], steps[k], t)
    decreases j - i
  {
    hide Apply, Inv;
    RunKeepsInv(states, steps, i);
    if !LeavesFinished(states[i], steps[i], t) {
      StaysFinished(states[i], steps[i], t);
      FinishedIsLeft(states, steps, i + 1, j, t);
    }
  }

  /** Everything that is under the task in state k is asked to stop or complete in state j. */
  ghost predicate ShutBelow(states: seq<Sys>, k: nat, j: nat, t: nat)
    requires k < |states| && j < |states|
  {
    forall u :: u in Subtree(states[k].recs, states[k].live, t) ==> AskedOrDone(states[j], u)
  }

  /** A task whose function ended because it was cancelled cancels everything under it before its goroutine goes on:
      whatever was under it at that step is, from then on, asked to stop or complete. */
  lemma CancelledTaskCancelsItsSubtree(states: seq<Sys>, steps: seq<Step>, i: nat, j: nat, t: nat)
    requires IsRun(states, steps) && i < j < |states| && Ends(states[i], steps[i], t, ReturnedCanceled)
    requires !NotPast(states[j], t)
    ensures exists k :: i < k < j && LeavesFinished(states[k], steps[k], t) && ShutBelow(states, k, j, t)
  {
    hide Apply, Inv, Subtree;
    EndFinishes(states[i], steps[i], t, ReturnedCanceled);
    FinishedIsLeft(states, steps, i + 1, j, t);
    var k :| i < k < j && LeavesFinished(states[k], steps[k], t);
    RunKeepsInv(states, steps, i);
    RunningHasNoError(states, steps, i);
    EndIsRecorded(states[i], steps[i], t, ReturnedCanceled);
    ResultsStay(states, steps, i + 1, k, t);
    assert Cancels(states[k], steps[k], t);
    forall u | u in Subtree(states[k].recs, states[k].live, t) ensures AskedOrDone(states[j], u) {
      CancelledSubtreeStaysShut(states, steps, k, j, t, u, 0);
    }
  }

  // ---------- nobody is cancelled without a cause ----------

  /** A Cancel call that reaches the task. */
  predicate Reaches(s: Sys, step: Step, root: nat, t: nat) {
    Cancels(s, step, root) && t in Subtree(s.recs, s.live, root)
  }

  lemma RequestNeedsCancel(s: Sys, step: Step, t: nat)
    requires Inv(s) && t in Apply(s, step).recs && Apply(s, step).recs[t].cancelRequested
    ensures (t in s.recs && s.recs[t].cancelRequested) || exists root :: Reaches(s, step, root, t)
  {
    hide ApplyAdvance, ApplyCancel, Subtree;
    match step
    case CancelCall(root) =>
      CancelAsksBelow(s, root, t);
      assert Reaches(s, step, root, t) <==> t in Subtree(s.recs, s.live, root);
    case Advance(u, result) =>
      if u in s.phases && u in s.recs {
        AdvanceAsksBelow(s, u, result, t);
        assert Reaches(s, step, u, t) <==> Cascades(s, u) && t in Subtree(s.recs, s.live, u);
      }
    case _ =>
  }

  lemma CancelAsksBelow(s: Sys, root: nat, t: nat)
    ensures t in ApplyCancel(s, root).recs && ApplyCancel(s, root).recs[t].cancelRequested ==>
              t in s.recs && (s.recs[t].cancelRequested || t in Subtree(s.recs, s.live, root))
  {
    hide Subtree, Cancellable;
  }

  lemma AdvanceAsksBelow(s: Sys, u: nat, result: FnResult, t: nat)
    requires u in s.phases && u in s.recs
    ensures var s' := ApplyAdvance(s, u, result);
            t in s'.recs && s'.recs[t].cancelRequested ==>
              t in s.recs && (s.recs[t].cancelRequested || (Cascades(s, u) && t in Subtree(s.recs, s.live, u)))
  {
    AdvanceIsLocal(s, u, result);
    CancelAsksBelow(s, u, t);
    hide ApplyCancel, ApplyAdvance, Subtree;
  }

  /** Its context is cancelled, or its cancel function taken, only if its cancellation was requested. */
  predicate OnlyAsked(s: Sys, t: nat) {
    t in s.canceledContexts || t in s.held || (t in s.recs && t in s.phases && s.phases[t] == Installed(true)) ==>
      t in s.recs && s.recs[t].cancelRequested
  }

  lemma CancelKeepsOnlyAsked(s: Sys, root: nat, t: nat)
    requires OnlyAsked(s, t)
    ensures OnlyAsked(ApplyCancel(s, root), t)
  {
    hide Subtree;
  }

  lemma AdvanceKeepsOnlyAsked(s: Sys, u: nat, result: FnResult, t: nat)
    requires OnlyAsked(s, t) && u in s.phases && u in s.recs && PhaseShape(s.phases[u])
    ensures OnlyAsked(ApplyAdvance(s, u, result), t)
  {
    AdvanceIsLocal(s, u, result);
    CancelKeepsOnlyAsked(s, u, t);
    if !Cascades(s, u) {
      AdvanceCancelsContext(s, u, result);
    }
    hide ApplyCancel, ApplyAdvance;
  }

  lemma StepKeepsOnlyAsked(s: Sys, step: Step, t: nat)
    requires Inv(s) && OnlyAsked(s, t)
    ensures OnlyAsked(Apply(s, step), t)
  {
    hide ApplyCancel, ApplyAdvance, SpawnCheck;
    match step
    case Advance(u, result) =>
      if u in s.phases && u in s.recs {
        assert TaskOk(s, u);
        AdvanceKeepsOnlyAsked(s, u, result, t);
      }
    case CancelCall(root) => CancelKeepsOnlyAsked(s, root, t);
    case _ =>
  }

  /** A task is asked to stop only by a Cancel call that reached it, of itself or of an ancestor, and only then is its
      context cancelled. */
  lemma {:induction false} NoCancellationWithoutCause(states: seq<Sys>, steps: seq<Step>, j: nat, t: nat)
    requires IsRun(states, steps) && j < |states|
    ensures OnlyAsked(states[j], t)
    ensures t in states[j].recs && states[j].recs[t].cancelRequested ==>
              exists k, root :: 0 <= k < j && Reaches(states[k], steps[k], root, t)
  {
    hide Apply, Inv, Reaches, OnlyAsked;
    if j > 0 {
      NoCancellationWithoutCause(states, steps, j - 1, t);
      RunKeepsInv(states, steps, j - 1);
      StepKeepsOnlyAsked(states[j - 1], steps[j - 1], t);
      if t in states[j].recs && states[j].recs[t].cancelRequested {
        RequestNeedsCancel(states[j - 1], steps[j - 1], t);
      }
    } else {
      NobodyAskedAtFirst(states[0], t);
    }
  }

  lemma NobodyAskedAtFirst(s: Sys, t: nat)
    requires IsInit(s)
    ensures OnlyAsked(s, t) && t !in s.recs
  {
  }
}
