// The life of a merge-queue row over every interleaving: the unique indexes,
// absorbing final states, attempt bounds, and failure escalation.
module MergeQueueLifecycle {
  import opened Options
  import opened MergeQueueTable
  import opened MergeQueueProtocol
  import opened MergeQueueFencing

  // Does this step write a recovered state to the row without looking at its status?
  predicate Sweeps(s: State, step: Step, id: QueueId) {
    step.SweepUpdate? && step.w in s.sweeps && id in s.sweeps[step.w]
  }

  // The update the database refuses because it would break the index on active rows.
  predicate SweepRefused(s: State, step: Step)
    requires step.SweepUpdate? && step.w in s.sweeps
  {
    !PrIndexHolds(RequeueIds(s.rows, s.sweeps[step.w], step.now + ResolveRetryDelayMs(step.cfg)))
  }

  // A sweep is benign when none of the rows it selected has finished since.
  predicate Benign(s: State, step: Step) {
    step.SweepUpdate? && step.w in s.sweeps ==>
      forall id :: id in s.sweeps[step.w] && id in s.rows ==> Active(s.rows[id])
  }

  ghost predicate BenignRun(s: State, steps: seq<Step>) {
    forall k :: 0 <= k < |steps| ==> Benign(Run(s, steps[..k]), steps[k])
  }

  // Recovery as one atomic statement: every update directly follows its own select.
  ghost predicate AtomicRecovery(steps: seq<Step>) {
    forall k :: 0 <= k < |steps| && steps[k].SweepUpdate? ==>
      k > 0 && steps[k - 1].SweepSelect? && steps[k - 1].w == steps[k].w
  }

  // Rows are never deleted and never change identity; a row that is active after
  // a step was active before it, was just inserted, or was swept.
  lemma RowsAreKept(s: State, step: Step, id: QueueId)
    ensures id in s.rows ==>
      && id in Next(s, step).rows
      && var (before, after) := (s.rows[id], Next(s, step).rows[id]);
         && after.prNumber == before.prNumber && after.taskId == before.taskId && after.runId == before.runId
         && after.maxAttempts == before.maxAttempts
         && (!Active(before) && !Sweeps(s, step, id) ==> after == before)
    ensures id in Next(s, step).rows && id !in s.rows ==>
      && step.Enqueue? && step.id == id
      && Next(s, step).rows[id]
           == NewRow(step.prNumber, step.taskId, step.runId, step.priority, step.reason, step.now, step.cfg)
      && InsertAllowed(s.rows, id, Next(s, step).rows[id])
  {
  }

  ghost predicate IndexesHold(s: State) {
    PrIndexHolds(s.rows) && SourceIndexHolds(s.rows)
  }

  lemma StepKeepsIndexes(s: State, step: Step)
    requires IndexesHold(s)
    ensures IndexesHold(Next(s, step))
  {
    var t := Next(s, step).rows;
    forall a, b | a in t && b in t && a != b
      ensures t[a].taskId != t[b].taskId || t[a].runId != t[b].runId
      ensures Active(t[a]) && Active(t[b]) ==> t[a].prNumber != t[b].prNumber
    {
      RowsAreKept(s, step, a);
      RowsAreKept(s, step, b);
      if step.SweepUpdate? && step.w in s.sweeps {
        assert t == s.rows || PrIndexHolds(t);
      }
    }
  }

  // At most one active row per pull request and at most one row ever per (task,
  // run) pair, however enqueues race and however sweeps are split.
  lemma {:induction false} IndexesHoldInEveryRun(steps: seq<Step>)
    ensures IndexesHold(Run(INIT, steps))
  {
    if steps != [] {
      IndexesHoldInEveryRun(steps[..|steps| - 1]);
      StepKeepsIndexes(Run(INIT, steps[..|steps| - 1]), steps[|steps| - 1]);
    }
  }

  lemma BenignSweepIsNotRefused(s: State, step: Step)
    requires IndexesHold(s) && Benign(s, step) && step.SweepUpdate? && step.w in s.sweeps
    ensures !SweepRefused(s, step)
  {
  }

  // A step changes a finished row exactly when it is a sweep that was not refused
  // and that had selected a row which finished in the meantime.
  lemma FinishedRowReopensIffStaleSweep(s: State, step: Step)
    requires IndexesHold(s)
    ensures (exists id :: id in s.rows && !Active(s.rows[id]) && Next(s, step).rows[id] != s.rows[id])
       <==> (!Benign(s, step) && !SweepRefused(s, step))
  {
    if !Benign(s, step) && !SweepRefused(s, step) {
      var id :| id in s.sweeps[step.w] && id in s.rows && !Active(s.rows[id]);
      assert Next(s, step).rows[id] != s.rows[id];
    }
    forall id | id in s.rows && !Active(s.rows[id]) && Next(s, step).rows[id] != s.rows[id]
      ensures !Benign(s, step) && !SweepRefused(s, step)
    {
      RowsAreKept(s, step, id);
    }
  }

  lemma BenignPrefix(s: State, steps: seq<Step>)
    requires steps != [] && BenignRun(s, steps)
    ensures BenignRun(s, steps[..|steps| - 1]) && Benign(Run(s, steps[..|steps| - 1]), steps[|steps| - 1])
  {
    var prefix := steps[..|steps| - 1];
    forall k | 0 <= k < |prefix| ensures Benign(Run(s, prefix[..k]), prefix[k]) {
      assert prefix[..k] == steps[..k] && prefix[k] == steps[k];
      assert Benign(Run(s, steps[..k]), steps[k]);
    }
  }

  // Merged and failed are absorbing over any run with benign sweeps.
  lemma {:induction false} FinishedRowsStayFinished(s: State, steps: seq<Step>, id: QueueId)
    requires id in s.rows && !Active(s.rows[id]) && BenignRun(s, steps)
    ensures id in Run(s, steps).rows && Run(s, steps).rows[id] == s.rows[id]
  {
    if steps != [] {
      var prefix, last := steps[..|steps| - 1], steps[|steps| - 1];
      BenignPrefix(s, steps);
      FinishedRowsStayFinished(s, prefix, id);
      RowsAreKept(Run(s, prefix), last, id);
    }
  }

  ghost predicate WithinBounds(row: Row) {
    && row.maxAttempts >= 1
    && match row.status
       case Pending => row.attemptCount < row.maxAttempts
       case Processing => row.attemptCount < row.maxAttempts
       case Failed => row.attemptCount == row.maxAttempts
       case Merged => 1 <= row.attemptCount <= row.maxAttempts
       case Cancelled => false
  }

  ghost predicate AttemptsBounded(s: State) {
    forall id :: id in s.rows ==> WithinBounds(s.rows[id])
  }

  lemma StepKeepsRowBounded(s: State, step: Step, id: QueueId)
    requires Fenced(s) && AttemptsBounded(s) && Benign(s, step) && id in Next(s, step).rows
    ensures WithinBounds(Next(s, step).rows[id])
  {
    RowsAreKept(s, step, id);
    if MayFinalize(s, step) {
      FinalizeAppliesIffTokenCurrent(s, step);
    } else if id in s.rows {
      UncountedStep(s, step, id);
    }
  }

  // The step sends a row that has used all its attempts back to the queue.
  predicate ExhaustedRowSwept(s: State, step: Step, id: QueueId) {
    && id in s.rows && Sweeps(s, step, id) && !SweepRefused(s, step)
    && s.rows[id].attemptCount == s.rows[id].maxAttempts
  }

  // A step breaks the attempt bounds exactly when it is a sweep that was not refused
  // and that had selected a row which finished in the meantime on its last attempt.
  lemma BoundsBreakIffExhaustedRowSwept(s: State, step: Step)
    requires Fenced(s) && AttemptsBounded(s)
    ensures !AttemptsBounded(Next(s, step)) <==>
      exists id :: ExhaustedRowSwept(s, step, id)
  {
    var t := Next(s, step);
    forall id | ExhaustedRowSwept(s, step, id)
      ensures id in t.rows && !WithinBounds(t.rows[id])
    {
      assert t.rows[id].status.Pending? && t.rows[id].attemptCount == t.rows[id].maxAttempts;
    }
    forall id | id in t.rows && !WithinBounds(t.rows[id])
      ensures ExhaustedRowSwept(s, step, id)
    {
      RowsAreKept(s, step, id);
      if Benign(s, step) {
        StepKeepsRowBounded(s, step, id);
      } else {
        assert WithinBounds(s.rows[id]);
      }
    }
  }

  // Only finalizes touch the attempt counter, and only they finish a row.
  lemma UncountedStep(s: State, step: Step, id: QueueId)
    requires id in s.rows && !MayFinalize(s, step)
    ensures Next(s, step).rows[id].attemptCount == s.rows[id].attemptCount
    ensures Active(Next(s, step).rows[id]) || Next(s, step).rows[id] == s.rows[id]
  {
  }

  ghost predicate OwesFor(s: State, w: WorkerId, id: QueueId) {
    w in s.workers && InDebt(s.workers[w].phase) && s.workers[w].phase.claim.id == id
  }

  ghost predicate EscalatedOnce(s: State) {
    && (forall j, k :: 0 <= j < k < |s.escalated| ==> s.escalated[j] != s.escalated[k])
    && (forall k :: 0 <= k < |s.escalated| ==> s.escalated[k] in s.rows && s.rows[s.escalated[k]].status.Failed?)
    && (forall w, id :: OwesFor(s, w, id) ==> id in s.rows && s.rows[id].status.Failed? && id !in s.escalated)
    && (forall v, w, id :: OwesFor(s, v, id) && OwesFor(s, w, id) ==> v == w)
  }

  // A worker comes to owe an escalation only by finalizing a processing row as failed.
  lemma DebtComesFromFinalize(s: State, step: Step, w: WorkerId, id: QueueId)
    requires OwesFor(Next(s, step), w, id) && !OwesFor(s, w, id)
    ensures MayFinalize(s, step) && step.w == w && s.workers[w].phase.claim.id == id
    ensures id in s.rows && s.rows[id].status.Processing?
    ensures Next(s, step).rows[id].status.Failed?
  {
  }

  lemma EscalationsComeFromDebt(s: State, step: Step)
    ensures || Next(s, step).escalated == s.escalated
            || (&& step.Escalate? && step.w in s.workers && InDebt(s.workers[step.w].phase)
                && Next(s, step).escalated == s.escalated + [s.workers[step.w].phase.claim.id]
                && !OwesFor(Next(s, step), step.w, s.workers[step.w].phase.claim.id)
                && Next(s, step).rows == s.rows)
  {
  }

  lemma StepKeepsEscalatedOnce(s: State, step: Step)
    requires EscalatedOnce(s) && Benign(s, step)
    ensures EscalatedOnce(Next(s, step))
  {
    var s' := Next(s, step);
    EscalationsComeFromDebt(s, step);
    if s'.escalated != s.escalated {
      assert OwesFor(s, step.w, s.workers[step.w].phase.claim.id);
    }
    forall id | id in s.rows && s.rows[id].status.Failed?
      ensures id in s'.rows && s'.rows[id].status.Failed?
    {
      RowsAreKept(s, step, id);
    }
    forall w, id | OwesFor(s', w, id)
      ensures id in s'.rows && s'.rows[id].status.Failed? && id !in s'.escalated
      ensures forall v :: OwesFor(s', v, id) ==> v == w
    {
      if !OwesFor(s, w, id) {
        DebtComesFromFinalize(s, step, w, id);
      }
      forall v | OwesFor(s', v, id)
        ensures v == w
      {
        if !OwesFor(s, v, id) {
          DebtComesFromFinalize(s, step, v, id);
        }
      }
    }
  }

  ghost predicate Lifecycle(s: State) {
    Fenced(s) && AttemptsBounded(s) && EscalatedOnce(s)
  }

  lemma StepKeepsLifecycle(s: State, step: Step)
    requires Lifecycle(s) && Benign(s, step)
    ensures Lifecycle(Next(s, step))
  {
    StepKeepsFences(s, step);
    forall id | id in Next(s, step).rows
      ensures WithinBounds(Next(s, step).rows[id])
    {
      StepKeepsRowBounded(s, step, id);
    }
    StepKeepsEscalatedOnce(s, step);
  }

  lemma {:induction false} BenignRunKeepsLifecycle(s: State, steps: seq<Step>)
    requires Lifecycle(s) && BenignRun(s, steps)
    ensures Lifecycle(Run(s, steps))
  {
    if steps != [] {
      var prefix, last := steps[..|steps| - 1], steps[|steps| - 1];
      BenignPrefix(s, steps);
      BenignRunKeepsLifecycle(s, prefix);
      StepKeepsLifecycle(Run(s, prefix), last);
    }
  }

  // With atomic recovery every sweep is benign.
  lemma AtomicRecoveryIsBenign(s: State, steps: seq<Step>)
    requires AtomicRecovery(steps)
    ensures BenignRun(s, steps)
  {
    forall k | 0 <= k < |steps|
      ensures Benign(Run(s, steps[..k]), steps[k])
    {
      if steps[k].SweepUpdate? {
        assert steps[..k][..k - 1] == steps[..k - 1];
        assert Run(s, steps[..k]) == Next(Run(s, steps[..k - 1]), steps[k - 1]);
      }
    }
  }

  // With atomic recovery, in every reachable state: the claim fields of a row are set
  // exactly while it is processing; active rows have attempts left, failed rows have
  // used exactly all of them, merged rows between one and all; and no row's failure is
  // escalated twice.
  lemma LifecycleHoldsInEveryRun(steps: seq<Step>)
    requires AtomicRecovery(steps)
    ensures Lifecycle(Run(INIT, steps))
    ensures forall id :: id in Run(INIT, steps).rows ==> ClaimFieldsMatchStatus(Run(INIT, steps).rows[id])
  {
    AtomicRecoveryIsBenign(INIT, steps);
    BenignRunKeepsLifecycle(INIT, steps);
    var s := Run(INIT, steps);
    forall id | id in s.rows ensures ClaimFieldsMatchStatus(s.rows[id]) {
      assert RowFenced(s, id);
    }
  }
}
