// Claim tokens fence out every worker that lost its row. Everything here holds
// in every interleaving of every step, including recovery sweeps whose select
// and update are separated by steps of other workers.
module MergeQueueFencing {
  import opened Options
  import opened MergeQueueTable
  import opened MergeQueueProtocol

  // Number of applied finalizes of one row.
  function TimesApplied(applied: seq<Applied>, id: QueueId): nat {
    if applied == [] then 0
    else TimesApplied(applied[..|applied| - 1], id) + (if applied[|applied| - 1].id == id then 1 else 0)
  }

  ghost predicate ClaimFieldsMatchStatus(row: Row) {
    if row.status.Processing? then
      row.claimOwner.Some? && row.claimToken.Some? && row.claimExpiresAt.Some? && row.claimedAt.Some?
    else
      row.claimOwner.None? && row.claimToken.None? && row.claimExpiresAt.None? && row.claimedAt.None?
  }

  ghost predicate Current(t: Table, token: Token) {
    exists id :: id in t && t[id].claimToken == Some(token)
  }

  // A claimed row carries a token that was issued for it, and has not changed since.
  ghost predicate RowFenced(s: State, id: QueueId)
    requires id in s.rows
  {
    var row := s.rows[id];
    && ClaimFieldsMatchStatus(row)
    && (row.status.Processing? ==>
          && row.claimToken.value in s.issued
          && var g := s.issued[row.claimToken.value];
             && g.id == id && g.agent == row.claimOwner.value
             && g.attemptCount == row.attemptCount && g.maxAttempts == row.maxAttempts)
    && row.attemptCount == TimesApplied(s.applied, id)
  }

  // A busy worker remembers exactly what was issued to it.
  ghost predicate WorkerFenced(s: State, w: WorkerId)
    requires w in s.workers
  {
    Busy(s.workers[w].phase) ==>
      var c := s.workers[w].phase.claim;
      c.token in s.issued && s.issued[c.token] == Grant(w, s.workers[w].agent, c.id, c.attemptCount, c.maxAttempts)
  }

  // A token that was finalized has left its row.
  ghost predicate AppliedFenced(s: State, a: Applied) {
    && a.token in s.issued && s.issued[a.token].id == a.id
    && a.id in s.rows && s.rows[a.id].claimToken != Some(a.token)
  }

  ghost predicate Fenced(s: State) {
    && (forall id :: id in s.rows ==> RowFenced(s, id))
    && (forall w :: w in s.workers ==> WorkerFenced(s, w))
    && (forall k :: 0 <= k < |s.applied| ==> AppliedFenced(s, s.applied[k]))
    && (forall j, k :: 0 <= j < k < |s.applied| ==> s.applied[j].token != s.applied[k].token)
  }

  lemma {:induction false} NeverAppliedCountsZero(applied: seq<Applied>, id: QueueId)
    requires forall k :: 0 <= k < |applied| ==> applied[k].id != id
    ensures TimesApplied(applied, id) == 0
  {
    if applied != [] {
      NeverAppliedCountsZero(applied[..|applied| - 1], id);
    }
  }

  lemma AppendApplied(applied: seq<Applied>, a: Applied, id: QueueId)
    ensures TimesApplied(applied + [a], id) == TimesApplied(applied, id) + (if a.id == id then 1 else 0)
  {
    assert (applied + [a])[..|applied|] == applied;
  }

  // Rows may lose their claims, keep everything, or have a lease extended: none of this breaks a fence.
  lemma ReleasingRowsKeepsFences(s: State, rows: Table)
    requires Fenced(s) && rows.Keys == s.rows.Keys
    requires forall id :: id in rows ==> ClaimFieldsMatchStatus(rows[id])
    requires forall id :: id in rows ==>
      rows[id].attemptCount == s.rows[id].attemptCount && rows[id].maxAttempts == s.rows[id].maxAttempts
    requires forall id :: id in rows && rows[id].claimToken.Some? ==>
      rows[id].claimToken == s.rows[id].claimToken && rows[id].claimOwner == s.rows[id].claimOwner
    ensures Fenced(s.(rows := rows))
  {
  }

  lemma RequeueKeepsFences(s: State, ids: set<QueueId>, at: Time)
    requires Fenced(s)
    ensures Fenced(s.(rows := RequeueIds(s.rows, ids, at)))
  {
    ReleasingRowsKeepsFences(s, RequeueIds(s.rows, ids, at));
  }

  // Moving a worker on while it keeps its claim, or dropping the claim, breaks no fence.
  lemma PhaseKeepsFences(s: State, w: WorkerId, p: Phase)
    requires Fenced(s) && w in s.workers
    requires Busy(p) ==> Busy(s.workers[w].phase) && s.workers[w].phase.claim == p.claim
    ensures Fenced(SetPhase(s, w, p))
  {
  }

  // The row write of an applied finalize, before the worker moves on.
  lemma AppliedWriteKeepsFences(s: State, w: WorkerId, claim: Snapshot, row: Row)
    requires Fenced(s) && w in s.workers && Busy(s.workers[w].phase) && s.workers[w].phase.claim == claim
    requires GuardMatches(s, s.workers[w].agent, claim)
    requires row.attemptCount == claim.attemptCount + 1 && row.maxAttempts == s.rows[claim.id].maxAttempts
    requires ClaimFieldsMatchStatus(row) && !row.status.Processing?
    ensures Fenced(s.(rows := s.rows[claim.id := row], applied := s.applied + [Applied(claim.id, claim.token)]))
  {
    var applied := s.applied + [Applied(claim.id, claim.token)];
    var s' := s.(rows := s.rows[claim.id := row], applied := applied);
    assert RowFenced(s, claim.id) && WorkerFenced(s, w);
    forall id | id in s'.rows
      ensures RowFenced(s', id)
    {
      assert RowFenced(s, id);
      AppendApplied(s.applied, Applied(claim.id, claim.token), id);
    }
    forall v | v in s'.workers
      ensures WorkerFenced(s', v)
    {
      assert WorkerFenced(s, v);
    }
    forall k | 0 <= k < |applied|
      ensures AppliedFenced(s', applied[k])
      ensures k < |s.applied| ==> applied[k].token != claim.token
    {
      assert k < |s.applied| ==> AppliedFenced(s, s.applied[k]);
    }
  }

  lemma FinalizeRowKeepsFences(s: State, w: WorkerId, claim: Snapshot, status: Status, at: Time, err: Option<string>,
                               ifApplied: Phase, ifLost: Phase)
    requires Fenced(s) && w in s.workers && Busy(s.workers[w].phase) && s.workers[w].phase.claim == claim
    requires !status.Processing?
    requires Busy(ifApplied) ==> ifApplied.claim == claim
    requires Busy(ifLost) ==> ifLost.claim == claim
    ensures Fenced(FinalizeRow(s, w, claim, status, at, err, ifApplied, ifLost))
  {
    if GuardMatches(s, s.workers[w].agent, claim) {
      var row := FinalizedRow(s.rows[claim.id], status, claim.attemptCount + 1, at, err);
      AppliedWriteKeepsFences(s, w, claim, row);
      var s' := s.(rows := s.rows[claim.id := row], applied := s.applied + [Applied(claim.id, claim.token)]);
      assert s'.workers == s.workers;
      PhaseKeepsFences(s', w, ifApplied);
      assert FinalizeRow(s, w, claim, status, at, err, ifApplied, ifLost) == SetPhase(s', w, ifApplied);
    } else {
      PhaseKeepsFences(s, w, ifLost);
      assert FinalizeRow(s, w, claim, status, at, err, ifApplied, ifLost) == SetPhase(s, w, ifLost);
    }
  }

  lemma ClaimKeepsFences(s: State, w: WorkerId, id: QueueId, token: Token, now: Time, cfg: Config)
    requires Fenced(s)
    ensures Fenced(Next(s, Claim(w, id, token, now, cfg)))
  {
  }

  lemma EnqueueKeepsFences(s: State, id: QueueId, row: Row)
    requires Fenced(s) && InsertAllowed(s.rows, id, row)
    requires row.status.Pending? && row.attemptCount == 0 && ClaimFieldsMatchStatus(row)
    ensures Fenced(s.(rows := s.rows[id := row]))
  {
    NeverAppliedCountsZero(s.applied, id);
  }

  lemma RenewKeepsFences(s: State, id: QueueId, agent: AgentId, token: Token, now: Time, cfg: Config)
    requires Fenced(s)
    ensures Fenced(Next(s, Renew(id, agent, token, now, cfg)))
  {
    if id in s.rows && HeldBy(s.rows[id], agent, token) {
      ReleasingRowsKeepsFences(s, Next(s, Renew(id, agent, token, now, cfg)).rows);
    }
  }

  lemma FinalizeKeepsFences(s: State, step: Step)
    requires Fenced(s) && (step.Finalize? || step.CatchFinalize?)
    ensures Fenced(Next(s, step))
  {
    var w := step.w;
    if w in s.workers && (s.workers[w].phase.Holding? || s.workers[w].phase.Catching?) {
      var claim := s.workers[w].phase.claim;
      var status := StatusAfterFailure(claim);
      var at := RetryTime(status, step.now, step.cfg);
      if step.Finalize? {
        FinalizeRowKeepsFences(s, w, claim, Merged, step.now, None, Finalized(claim), Idle);
        FinalizeRowKeepsFences(s, w, claim, status, at, Some(step.failure),
                               if status.Failed? then Owing(claim) else Finalized(claim), Idle);
      } else {
        FinalizeRowKeepsFences(s, w, claim, status, at, Some(step.failure),
                               if status.Failed? then OwingInCatch(claim) else Idle, Idle);
      }
    }
  }

  // Throw, escalate, finish and crash only move the worker.
  lemma ProgramStepKeepsFences(s: State, step: Step)
    requires Fenced(s) && (step.Throw? || step.Escalate? || step.Finish? || step.Crash?)
    ensures Fenced(Next(s, step))
  {
    if step.w in s.workers && step.w in Next(s, step).workers {
      PhaseKeepsFences(s, step.w, Next(s, step).workers[step.w].phase);
    }
  }

  lemma IdleStepKeepsFences(s: State, step: Step)
    requires Fenced(s) && (step.Start? || step.SweepSelect?)
    ensures Fenced(Next(s, step))
  {
  }

  lemma EnqueueStepKeepsFences(s: State, step: Step)
    requires Fenced(s) && step.Enqueue?
    ensures Fenced(Next(s, step))
  {
    var row := NewRow(step.prNumber, step.taskId, step.runId, step.priority, step.reason, step.now, step.cfg);
    if InsertAllowed(s.rows, step.id, row) {
      EnqueueKeepsFences(s, step.id, row);
    }
  }

  lemma SweepStepKeepsFences(s: State, step: Step)
    requires Fenced(s) && step.SweepUpdate?
    ensures Fenced(Next(s, step))
  {
    if step.w in s.sweeps {
      RequeueKeepsFences(s, s.sweeps[step.w], step.now + ResolveRetryDelayMs(step.cfg));
    }
  }

  lemma ReleaseStepKeepsFences(s: State, step: Step)
    requires Fenced(s) && step.Release?
    ensures Fenced(Next(s, step))
  {
    RequeueKeepsFences(s, OwnedIds(s.rows, step.agent), step.now + ResolveRetryDelayMs(step.cfg));
  }

  // Every step of every worker keeps the fences.
  lemma StepKeepsFences(s: State, step: Step)
    requires Fenced(s)
    ensures Fenced(Next(s, step))
  {
    match step
    case Start(_, _) => IdleStepKeepsFences(s, step);
    case SweepSelect(_, _) => IdleStepKeepsFences(s, step);
    case Enqueue(_, _, _, _, _, _, _, _) => EnqueueStepKeepsFences(s, step);
    case Claim(w, id, token, now, cfg) => ClaimKeepsFences(s, w, id, token, now, cfg);
    case Renew(id, agent, token, now, cfg) => RenewKeepsFences(s, id, agent, token, now, cfg);
    case Finalize(_, _, _, _, _) => FinalizeKeepsFences(s, step);
    case CatchFinalize(_, _, _, _) => FinalizeKeepsFences(s, step);
    case SweepUpdate(_, _, _) => SweepStepKeepsFences(s, step);
    case Release(_, _, _) => ReleaseStepKeepsFences(s, step);
    case _ => ProgramStepKeepsFences(s, step);
  }

  // Every reachable state is fenced.
  lemma {:induction false} RunKeepsFences(s: State, steps: seq<Step>)
    requires Fenced(s)
    ensures Fenced(Run(s, steps))
  {
    if steps != [] {
      RunKeepsFences(s, steps[..|steps| - 1]);
      StepKeepsFences(Run(s, steps[..|steps| - 1]), steps[|steps| - 1]);
    }
  }

  ghost predicate MayFinalize(s: State, step: Step) {
    || (step.Finalize? && step.w in s.workers && s.workers[step.w].phase.Holding?)
    || (step.CatchFinalize? && step.w in s.workers && s.workers[step.w].phase.Catching?)
  }

  // A finalize changes a row exactly when the worker's token is still on its
  // row. It then decides from the counters the row itself holds, not from stale
  // ones: one more attempt, "failed" exactly when that was the last attempt. It
  // clears the claim and leaves every other row alone.
  lemma FinalizeAppliesIffTokenCurrent(s: State, step: Step)
    requires Fenced(s) && MayFinalize(s, step)
    ensures var claim := s.workers[step.w].phase.claim;
      var t := Next(s, step).rows;
      && (t != s.rows <==> Current(s.rows, claim.token))
      && (Current(s.rows, claim.token) ==>
            && claim.id in s.rows
            && t.Keys == s.rows.Keys
            && t[claim.id].attemptCount == s.rows[claim.id].attemptCount + 1
            && t[claim.id].status == (
                 if step.Finalize? && step.merged then Merged
                 else if s.rows[claim.id].attemptCount + 1 < s.rows[claim.id].maxAttempts then Pending
                 else Failed)
            && ClaimFieldsMatchStatus(t[claim.id])
            && forall id :: id in t && id != claim.id ==> t[id] == s.rows[id])
  {
    var claim := s.workers[step.w].phase.claim;
    if GuardMatches(s, s.workers[step.w].agent, claim) {
      assert Current(s.rows, claim.token);
      assert Next(s, step).rows[claim.id] != s.rows[claim.id];
    } else {
      assert !Current(s.rows, claim.token);
    }
  }

  // Only a claim puts a token on a row, and only a token nobody was ever issued.
  lemma TokensComeFromClaims(s: State, step: Step, id: QueueId)
    requires id in Next(s, step).rows && Next(s, step).rows[id].claimToken.Some?
    ensures || (id in s.rows && Next(s, step).rows[id].claimToken == s.rows[id].claimToken)
            || (step.Claim? && Next(s, step).rows[id].claimToken == Some(step.token) && step.token !in s.issued)
  {
  }

  lemma IssuedOnlyGrows(s: State, step: Step)
    ensures s.issued.Keys <= Next(s, step).issued.Keys
  {
  }

  lemma StepKeepsTokenGone(s: State, step: Step, token: Token)
    requires token in s.issued && !Current(s.rows, token)
    ensures token in Next(s, step).issued && !Current(Next(s, step).rows, token)
  {
    var t := Next(s, step).rows;
    IssuedOnlyGrows(s, step);
    forall id | id in t
      ensures t[id].claimToken != Some(token)
    {
      if t[id].claimToken.Some? {
        TokensComeFromClaims(s, step, id);
      }
    }
  }

  // A token that left the table never comes back.
  lemma {:induction false} TokenNeverReturns(s: State, steps: seq<Step>, token: Token)
    requires token in s.issued && !Current(s.rows, token)
    ensures token in Run(s, steps).issued && !Current(Run(s, steps).rows, token)
  {
    if steps != [] {
      TokenNeverReturns(s, steps[..|steps| - 1], token);
      StepKeepsTokenGone(Run(s, steps[..|steps| - 1]), steps[|steps| - 1], token);
    }
  }

  // A worker whose claim was recovered, released or already finalized can never
  // change a row with that claim again, whatever happens in between.
  lemma RevokedHolderNeverWrites(s: State, w: WorkerId, steps: seq<Step>, last: Step)
    requires Fenced(s) && w in s.workers && Busy(s.workers[w].phase)
    requires !Current(s.rows, s.workers[w].phase.claim.token)
    requires MayFinalize(Run(s, steps), last) && last.w == w
    requires Run(s, steps).workers[w].phase.claim.token == s.workers[w].phase.claim.token
    ensures Next(Run(s, steps), last).rows == Run(s, steps).rows
  {
    TokenNeverReturns(s, steps, s.workers[w].phase.claim.token);
    RunKeepsFences(s, steps);
    FinalizeAppliesIffTokenCurrent(Run(s, steps), last);
  }

  // A sweep that writes a processing row takes its token away; so does a release.
  lemma RecoveryRevokes(s: State, step: Step, id: QueueId)
    requires Fenced(s) && id in s.rows && s.rows[id].status.Processing?
    requires step.SweepUpdate? || step.Release?
    requires Next(s, step).rows[id] != s.rows[id]
    ensures !Current(Next(s, step).rows, s.rows[id].claimToken.value)
    ensures Next(s, step).rows[id].attemptCount == s.rows[id].attemptCount
  {
  }

  // Over any run: each token is used by at most one applied finalize, and the
  // attempt counter of a row is the number of finalizes applied to it. No
  // attempt is lost and none is counted twice, even when an exception after an
  // applied finalize makes the catch block finalize again.
  lemma AttemptsAreAppliedFinalizes(steps: seq<Step>)
    ensures var s := Run(INIT, steps);
      && (forall j, k :: 0 <= j < k < |s.applied| ==> s.applied[j].token != s.applied[k].token)
      && (forall id :: id in s.rows ==> s.rows[id].attemptCount == TimesApplied(s.applied, id))
  {
    RunKeepsFences(INIT, steps);
  }
}
