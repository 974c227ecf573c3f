// Lease timing: when the heartbeat keeps a claim alive, and what split recovery
// sweeps can do to a claim or to a finished row.
module MergeQueueLease {
  import opened Options
  import opened MergeQueueTable
  import opened MergeQueueProtocol
  import opened MergeQueueFencing
  import opened MergeQueueLifecycle

  function HeartbeatIntervalMs(cfg: Config): int {
    var half := ResolveClaimTtlMs(cfg) / 2;
    if half < 5_000 then 5_000 else half
  }

  // One claim: the worker, its token, the row, and the clock reading of the claim.
  datatype Holder = Holder(w: WorkerId, agent: AgentId, id: QueueId, token: Token, claimedAt: Time, cfg: Config)

  predicate IsBeat(step: Step, h: Holder) {
    step.Renew? && step.id == h.id && step.agent == h.agent && step.token == h.token
  }

  // The clock reading of the last beat, or of the claim while there is none.
  function LastBeat(steps: seq<Step>, h: Holder): Time {
    if steps == [] then h.claimedAt
    else if IsBeat(steps[|steps| - 1], h) then steps[|steps| - 1].now
    else LastBeat(steps[..|steps| - 1], h)
  }

  // When the claim expires unless another beat comes.
  function Deadline(steps: seq<Step>, h: Holder): Time {
    LastBeat(steps, h) + ResolveClaimTtlMs(h.cfg)
  }

  // One step of the world while the heartbeat runs: the settings stay, the holder has not
  // finalized and nobody released the holder's rows by name. Recoveries may do as they like.
  predicate Undisturbed(step: Step, h: Holder) {
    match step
    case Renew(id, agent, token, now, cfg) => IsBeat(step, h) ==> cfg == h.cfg
    case Release(agent, now, cfg) => agent != h.agent
    case Finalize(w, merged, failure, now, cfg) => w != h.w
    case CatchFinalize(w, failure, now, cfg) => w != h.w
    case _ => true
  }

  ghost predicate AllUndisturbed(steps: seq<Step>, h: Holder) {
    forall k :: 0 <= k < |steps| ==> Undisturbed(steps[k], h)
  }

  // Every beat comes less than the lifetime of a claim after the beat before it, the first
  // after the claim.
  ghost predicate Timely(steps: seq<Step>, h: Holder) {
    forall k :: 0 <= k < |steps| && IsBeat(steps[k], h) ==> steps[k].now < Deadline(steps[..k], h)
  }

  // The steps whose clock reading matters: the holder's beats and everybody's selects.
  predicate Timed(step: Step, h: Holder) {
    IsBeat(step, h) || step.SweepSelect?
  }

  // Beats and selects read one clock that never goes back and shows at most end.
  ghost predicate OneClock(steps: seq<Step>, h: Holder, end: Time) {
    && (forall j, k :: 0 <= j < k < |steps| && Timed(steps[j], h) && Timed(steps[k], h) ==>
         steps[j].now <= steps[k].now)
    && (forall k :: 0 <= k < |steps| && Timed(steps[k], h) ==> steps[k].now <= end)
  }

  // No recovery looks for expired claims at or after the deadline of the holder's.
  ghost predicate SelectsInTime(steps: seq<Step>, h: Holder) {
    forall k :: 0 <= k < |steps| && steps[k].SweepSelect? ==> steps[k].now < Deadline(steps[..k], h)
  }

  // If the deadline moves after the first k steps, one of the later steps is the next beat.
  lemma {:induction false} NextBeat(steps: seq<Step>, h: Holder, k: nat)
    requires k <= |steps| && Deadline(steps[..k], h) != Deadline(steps, h)
    ensures exists m :: k <= m < |steps| && IsBeat(steps[m], h) && Deadline(steps[..m], h) == Deadline(steps[..k], h)
  {
    assert steps[..|steps|] == steps;
    var prefix := steps[..|steps| - 1];
    assert prefix[..k] == steps[..k];
    if Deadline(prefix, h) != Deadline(steps[..k], h) {
      NextBeat(prefix, h, k);
      var m :| k <= m < |prefix| && IsBeat(prefix[m], h) && Deadline(prefix[..m], h) == Deadline(prefix[..k], h);
      assert prefix[..m] == steps[..m] && prefix[m] == steps[m];
    }
  }

  lemma SelectIsInTime(steps: seq<Step>, h: Holder, end: Time, k: nat)
    requires Timely(steps, h) && OneClock(steps, h, end) && end < Deadline(steps, h)
    requires k < |steps| && steps[k].SweepSelect?
    ensures steps[k].now < Deadline(steps[..k], h)
  {
    assert Timed(steps[k], h);
    if Deadline(steps[..k], h) != Deadline(steps, h) {
      NextBeat(steps, h, k);
      var m :| k <= m < |steps| && IsBeat(steps[m], h) && Deadline(steps[..m], h) == Deadline(steps[..k], h);
      assert Timed(steps[m], h) && steps[m].now < Deadline(steps[..m], h);
    }
  }

  // Timely beats bound the clock of every select before them; the end bounds the others.
  lemma TimelyBeatsBoundSelects(steps: seq<Step>, h: Holder, end: Time)
    requires Timely(steps, h) && OneClock(steps, h, end) && end < Deadline(steps, h)
    ensures SelectsInTime(steps, h)
  {
    forall k | 0 <= k < |steps| && steps[k].SweepSelect? ensures steps[k].now < Deadline(steps[..k], h) {
      SelectIsInTime(steps, h, end, k);
    }
  }

  // No sweep that already selected the row is still waiting to write.
  predicate NoSweepPending(s: State, id: QueueId) {
    forall v :: v in s.sweeps ==> id !in s.sweeps[v]
  }

  ghost predicate LeaseHeld(s: State, h: Holder, deadline: Time) {
    && Fenced(s)
    && h.id in s.rows && HeldBy(s.rows[h.id], h.agent, h.token)
    && s.rows[h.id].claimExpiresAt == Some(deadline)
    && h.token in s.issued && s.issued[h.token].w == h.w
    && NoSweepPending(s, h.id)
  }

  lemma ClaimStartsLease(s: State, h: Holder)
    requires Fenced(s) && ClaimEnabled(s, h.w, h.id, h.token, h.claimedAt)
    requires h.agent == s.workers[h.w].agent && NoSweepPending(s, h.id)
    ensures LeaseHeld(Next(s, Claim(h.w, h.id, h.token, h.claimedAt, h.cfg)), h, Deadline([], h))
  {
    StepKeepsFences(s, Claim(h.w, h.id, h.token, h.claimedAt, h.cfg));
  }

  // Nobody but the holder can finalize with the holder's token.
  lemma OthersCannotFinalize(s: State, step: Step, h: Holder, deadline: Time)
    requires LeaseHeld(s, h, deadline) && MayFinalize(s, step) && step.w != h.w
    ensures Next(s, step).rows == s.rows || Next(s, step).rows[h.id] == s.rows[h.id]
    ensures Next(s, step).rows.Keys == s.rows.Keys
  {
    assert WorkerFenced(s, step.w);
    FinalizeAppliesIffTokenCurrent(s, step);
  }

  lemma UndisturbedStepKeepsRow(s: State, step: Step, h: Holder, deadline: Time)
    requires LeaseHeld(s, h, deadline) && Undisturbed(step, h)
    ensures h.id in Next(s, step).rows
    ensures if IsBeat(step, h)
            then Next(s, step).rows[h.id] == s.rows[h.id].(claimExpiresAt := Some(step.now + ResolveClaimTtlMs(h.cfg)))
            else Next(s, step).rows[h.id] == s.rows[h.id]
  {
    if MayFinalize(s, step) {
      OthersCannotFinalize(s, step, h, deadline);
    }
  }

  // One step keeps the lease, with its new deadline, unless it is a select that comes too late.
  lemma StepKeepsLeaseIff(s: State, step: Step, h: Holder, deadline: Time)
    requires LeaseHeld(s, h, deadline) && Undisturbed(step, h)
    ensures LeaseHeld(Next(s, step), h, if IsBeat(step, h) then step.now + ResolveClaimTtlMs(h.cfg) else deadline)
       <==> (step.SweepSelect? ==> step.now < deadline)
  {
    StepKeepsFences(s, step);
    UndisturbedStepKeepsRow(s, step, h, deadline);
    IssuedIsKept(s, step, h.token);
    SweepsSelectExpiredIff(s, step, h.id);
  }

  lemma IssuedIsKept(s: State, step: Step, token: Token)
    requires token in s.issued
    ensures token in Next(s, step).issued && Next(s, step).issued[token] == s.issued[token]
  {
  }

  lemma SweepsSelectExpiredIff(s: State, step: Step, id: QueueId)
    requires NoSweepPending(s, id) && id in s.rows
    ensures NoSweepPending(Next(s, step), id) <==> (step.SweepSelect? ==> !Expired(s.rows[id], step.now))
  {
    if step.SweepSelect? {
      assert step.w in Next(s, step).sweeps;
      assert id in Next(s, step).sweeps[step.w] <==> Expired(s.rows[id], step.now);
    }
  }

  lemma {:induction false} SelectsInTimeKeepLease(s: State, steps: seq<Step>, h: Holder)
    requires LeaseHeld(s, h, Deadline([], h)) && AllUndisturbed(steps, h) && SelectsInTime(steps, h)
    ensures LeaseHeld(Run(s, steps), h, Deadline(steps, h))
  {
    if steps != [] {
      var prefix, last := steps[..|steps| - 1], steps[|steps| - 1];
      InTimePrefix(steps, h, |prefix|);
      SelectsInTimeKeepLease(s, prefix, h);
      StepKeepsLeaseIff(Run(s, prefix), last, h, Deadline(prefix, h));
    }
  }

  lemma InTimePrefix(steps: seq<Step>, h: Holder, n: nat)
    requires n <= |steps| && AllUndisturbed(steps, h) && SelectsInTime(steps, h)
    ensures AllUndisturbed(steps[..n], h) && SelectsInTime(steps[..n], h)
  {
    var prefix := steps[..n];
    forall k | 0 <= k < n && prefix[k].SweepSelect? ensures prefix[k].now < Deadline(prefix[..k], h) {
      assert prefix[..k] == steps[..k] && prefix[k] == steps[k];
    }
  }

  // The claim is held after the first k steps and no recovery is about to take it.
  ghost predicate HeldAfter(s: State, steps: seq<Step>, h: Holder, k: nat)
    requires k <= |steps|
  {
    LeaseHeld(Run(s, steps[..k]), h, Deadline(steps[..k], h))
  }

  // Exactly when the claim survives, over runs of any length and any interleaving of the
  // other workers: it is held throughout if and only if no recovery looks for expired
  // claims at or after its deadline.
  lemma LeaseHeldThroughoutIff(s: State, steps: seq<Step>, h: Holder)
    requires LeaseHeld(s, h, Deadline([], h)) && AllUndisturbed(steps, h)
    ensures (forall k :: 0 <= k <= |steps| ==> HeldAfter(s, steps, h, k)) <==> SelectsInTime(steps, h)
  {
    if SelectsInTime(steps, h) {
      forall k | 0 <= k <= |steps| ensures HeldAfter(s, steps, h, k) {
        InTimePrefix(steps, h, k);
        SelectsInTimeKeepLease(s, steps[..k], h);
      }
    }
    if forall k :: 0 <= k <= |steps| ==> HeldAfter(s, steps, h, k) {
      forall k | 0 <= k < |steps| && steps[k].SweepSelect? ensures steps[k].now < Deadline(steps[..k], h) {
        LateSelectIsSeen(s, steps, h, k);
      }
    }
  }

  lemma LateSelectIsSeen(s: State, steps: seq<Step>, h: Holder, k: nat)
    requires k < |steps| && steps[k].SweepSelect? && HeldAfter(s, steps, h, k) && HeldAfter(s, steps, h, k + 1)
    ensures steps[k].now < Deadline(steps[..k], h)
  {
    assert steps[..k + 1][..k] == steps[..k];
    StepKeepsLeaseIff(Run(s, steps[..k]), steps[k], h, Deadline(steps[..k], h));
  }

  // While every beat is timely no recovery ever takes the row away, up to any moment before
  // the deadline of the last beat. Nothing is said about when recoveries run, but none may
  // have selected the row before the claim and still have to write: see SweepTakesClaimIff.
  lemma HeartbeatKeepsLease(s: State, steps: seq<Step>, h: Holder, end: Time)
    requires LeaseHeld(s, h, Deadline([], h)) && AllUndisturbed(steps, h)
    requires Timely(steps, h) && OneClock(steps, h, end) && end < Deadline(steps, h)
    ensures LeaseHeld(Run(s, steps), h, Deadline(steps, h))
  {
    TimelyBeatsBoundSelects(steps, h, end);
    SelectsInTimeKeepLease(s, steps, h);
  }

  // In particular up to any timely beat.
  lemma HeartbeatKeepsLeaseUpToBeat(s: State, steps: seq<Step>, beat: Step, h: Holder)
    requires LeaseHeld(s, h, Deadline([], h)) && AllUndisturbed(steps + [beat], h) && IsBeat(beat, h)
    requires Timely(steps + [beat], h) && OneClock(steps + [beat], h, beat.now)
    ensures LeaseHeld(Run(s, steps + [beat]), h, beat.now + ResolveClaimTtlMs(h.cfg))
  {
    HeartbeatKeepsLease(s, steps + [beat], h, beat.now);
  }

  // ---- Beats at their nominal times

  function Beats(steps: seq<Step>, h: Holder): nat {
    if steps == [] then 0
    else Beats(steps[..|steps| - 1], h) + (if IsBeat(steps[|steps| - 1], h) then 1 else 0)
  }

  // The nominal time of the n-th beat.
  function Nominal(h: Holder, n: nat): Time {
    h.claimedAt + n * HeartbeatIntervalMs(h.cfg)
  }

  // The timer has fired n times: a beat comes no earlier than its nominal time, and late by
  // less than the lifetime of a claim minus the interval.
  predicate PunctualStep(step: Step, h: Holder, n: nat) {
    IsBeat(step, h) ==> Nominal(h, n + 1) <= step.now < Nominal(h, n) + ResolveClaimTtlMs(h.cfg)
  }

  ghost predicate Punctual(steps: seq<Step>, h: Holder) {
    forall k :: 0 <= k < |steps| ==> PunctualStep(steps[k], h, Beats(steps[..k], h))
  }

  // Beats that keep to the timer are timely, and the deadline keeps ahead of it.
  lemma {:induction false} PunctualDeadline(steps: seq<Step>, h: Holder)
    requires Punctual(steps, h)
    ensures Nominal(h, Beats(steps, h)) + ResolveClaimTtlMs(h.cfg) <= Deadline(steps, h)
  {
    if steps != [] {
      var prefix := steps[..|steps| - 1];
      PunctualPrefix(steps, h, |prefix|);
      PunctualDeadline(prefix, h);
      assert PunctualStep(steps[|prefix|], h, Beats(prefix, h));
    }
  }

  lemma PunctualPrefix(steps: seq<Step>, h: Holder, n: nat)
    requires n <= |steps| && Punctual(steps, h)
    ensures Punctual(steps[..n], h)
  {
    forall k | 0 <= k < n ensures PunctualStep(steps[..n][k], h, Beats(steps[..n][..k], h)) {
      assert steps[..n][..k] == steps[..k];
    }
  }

  lemma PunctualBeatsAreTimely(steps: seq<Step>, h: Holder)
    requires Punctual(steps, h)
    ensures Timely(steps, h)
  {
    forall k | 0 <= k < |steps| && IsBeat(steps[k], h) ensures steps[k].now < Deadline(steps[..k], h) {
      PunctualPrefix(steps, h, k);
      PunctualDeadline(steps[..k], h);
      assert PunctualStep(steps[k], h, Beats(steps[..k], h));
    }
  }

  // So the lease is kept as long as every beat is late by less than the slack, up to any
  // moment at which the next beat is not overdue.
  lemma PunctualHeartbeatKeepsLease(s: State, steps: seq<Step>, h: Holder, end: Time)
    requires LeaseHeld(s, h, Deadline([], h)) && AllUndisturbed(steps, h) && Punctual(steps, h)
    requires OneClock(steps, h, end) && end < Nominal(h, Beats(steps, h)) + ResolveClaimTtlMs(h.cfg)
    ensures LeaseHeld(Run(s, steps), h, Deadline(steps, h))
  {
    PunctualBeatsAreTimely(steps, h);
    PunctualDeadline(steps, h);
    HeartbeatKeepsLease(s, steps, h, end);
  }

  // ---- The end of the processing

  lemma LeaseHolderFinalizes(s: State, h: Holder, deadline: Time, last: Step)
    requires LeaseHeld(s, h, deadline)
    requires MayFinalize(s, last) && last.w == h.w && s.workers[h.w].phase.claim.token == h.token
    ensures h.id in Next(s, last).rows
    ensures Next(s, last).rows[h.id].attemptCount == s.rows[h.id].attemptCount + 1
    ensures Next(s, last).applied == s.applied + [Applied(h.id, h.token)]
  {
    assert WorkerFenced(s, h.w);
    FinalizeAppliesIffTokenCurrent(s, last);
  }

  // Hence the finalize that ends the processing is applied.
  lemma OnTimeHolderFinalizes(s: State, h: Holder, steps: seq<Step>, last: Step, end: Time, s': State)
    requires Fenced(s) && ClaimEnabled(s, h.w, h.id, h.token, h.claimedAt)
    requires h.agent == s.workers[h.w].agent && NoSweepPending(s, h.id)
    requires AllUndisturbed(steps, h) && Timely(steps, h) && OneClock(steps, h, end) && end < Deadline(steps, h)
    requires s' == Run(Next(s, Claim(h.w, h.id, h.token, h.claimedAt, h.cfg)), steps)
    requires MayFinalize(s', last) && last.w == h.w && s'.workers[h.w].phase.claim.token == h.token
    ensures h.id in s'.rows && h.id in Next(s', last).rows
    ensures Next(s', last).rows[h.id].attemptCount == s'.rows[h.id].attemptCount + 1
    ensures Next(s', last).applied == s'.applied + [Applied(h.id, h.token)]
  {
    ClaimStartsLease(s, h);
    HeartbeatKeepsLease(Next(s, Claim(h.w, h.id, h.token, h.claimedAt, h.cfg)), steps, h, end);
    LeaseHolderFinalizes(s', h, Deadline(steps, h), last);
  }

  // The heartbeat has any slack at all exactly when the lease is longer than the
  // five-second floor of the interval; otherwise the lease has already run out at
  // the nominal time of the first beat.
  lemma FirstBeatInTimeIff(row: Row, agent: AgentId, token: Token, now: Time, cfg: Config)
    ensures Expired(ClaimedRow(row, agent, token, now, cfg), now + HeartbeatIntervalMs(cfg))
      <==> ResolveClaimTtlMs(cfg) <= 5_000
    ensures HeartbeatIntervalMs(cfg) < ResolveClaimTtlMs(cfg) <==> ResolveClaimTtlMs(cfg) > 5_000
  {
  }

  // Settings of the two traces below: one attempt, no retry delay, a ten-second lease.
  const TRACE_CFG := Config(Some(1), Some(0), Some(10_000))

  // Worker 2 has read that worker 1's claim expired, and has not written yet.
  ghost predicate SweepDelayed(s: State) {
    && s.workers == map[
         1 := Worker("a", Holding(Snapshot(0, 100, 0, 1))), 2 := Worker("b", Idle), 3 := Worker("c", Idle)]
    && s.rows == map[0 := ClaimedRow(NewRow(7, 0, 0, 0, None, 0, TRACE_CFG), "a", 100, 0, TRACE_CFG)]
    && s.sweeps == map[2 := {0}] && s.issued.Keys == {100}
  }

  function EnqueuedState(): State {
    var s := Next(Next(Next(INIT, Start(1, "a")), Start(2, "b")), Start(3, "c"));
    Next(s, Enqueue(0, 7, 0, 0, 0, None, 0, TRACE_CFG))
  }

  function DelayedState(): State {
    Next(Next(EnqueuedState(), Claim(1, 0, 100, 0, TRACE_CFG)), SweepSelect(2, 10_000))
  }

  lemma EnqueuedRow()
    ensures EnqueuedState() == INIT.(
      rows := map[0 := NewRow(7, 0, 0, 0, None, 0, TRACE_CFG)],
      workers := map[1 := Worker("a", Idle), 2 := Worker("b", Idle), 3 := Worker("c", Idle)])
  {
    assert InsertAllowed(map[], 0, NewRow(7, 0, 0, 0, None, 0, TRACE_CFG));
  }

  lemma DelayedStateIsDelayed()
    ensures SweepDelayed(DelayedState())
  {
    EnqueuedRow();
    var s := EnqueuedState();
    var s' := Next(s, Claim(1, 0, 100, 0, TRACE_CFG));
    assert s'.rows == map[0 := ClaimedRow(s.rows[0], "a", 100, 0, TRACE_CFG)];
    assert ExpiredIds(s'.rows, 10_000) == {0};
  }

  lemma DelayedStateIsReachable()
    ensures Reachable(DelayedState())
  {
    var s := EnqueuedState();
    var s' := Next(s, Claim(1, 0, 100, 0, TRACE_CFG));
    InitIsReachable();
    NextIsReachable(INIT, Start(1, "a"));
    NextIsReachable(Next(INIT, Start(1, "a")), Start(2, "b"));
    NextIsReachable(Next(Next(INIT, Start(1, "a")), Start(2, "b")), Start(3, "c"));
    NextIsReachable(Next(Next(Next(INIT, Start(1, "a")), Start(2, "b")), Start(3, "c")),
                    Enqueue(0, 7, 0, 0, 0, None, 0, TRACE_CFG));
    NextIsReachable(s, Claim(1, 0, 100, 0, TRACE_CFG));
    NextIsReachable(s', SweepSelect(2, 10_000));
  }

  // Why recovery must be atomic: with the update of a sweep delayed, a row that
  // was merged goes back to pending although it has used its last attempt.
  lemma SplitSweepReopensMergedRow(s: State)
    requires SweepDelayed(s)
    ensures var merged := Next(s, Finalize(1, true, "", 10_000, TRACE_CFG));
      var reopened := Next(merged, SweepUpdate(2, 10_000, TRACE_CFG));
      && 0 in merged.rows && merged.rows[0].status == Merged
      && 0 in reopened.rows && reopened.rows[0].status == Pending
      && !AttemptsBounded(reopened)
  {
    var merged := Next(s, Finalize(1, true, "", 10_000, TRACE_CFG));
    assert merged.rows.Keys == {0} && merged.sweeps == s.sweeps;
    var reopened := Next(merged, SweepUpdate(2, 10_000, TRACE_CFG));
    assert reopened.rows.Keys == {0};
    assert !WithinBounds(reopened.rows[0]);
  }

  // The row after worker 3 recovered it and claimed it at time 10000, with the sweep still pending.
  function ReclaimedState(s: State): State {
    Next(Next(Next(s, SweepSelect(3, 10_000)), SweepUpdate(3, 10_000, TRACE_CFG)), Claim(3, 0, 101, 10_000, TRACE_CFG))
  }

  lemma ReclaimedRow(s: State)
    requires SweepDelayed(s)
    ensures ReclaimedState(s).sweeps == map[2 := {0}]
    ensures ReclaimedState(s).rows ==
      map[0 := ClaimedRow(RequeuedRow(s.rows[0], 10_000), "c", 101, 10_000, TRACE_CFG)]
  {
    assert ExpiredIds(s.rows, 10_000) == {0};
    var selected := Next(s, SweepSelect(3, 10_000));
    assert selected == s.(sweeps := map[2 := {0}, 3 := {0}]);
    var recovered := Next(selected, SweepUpdate(3, 10_000, TRACE_CFG));
    assert recovered == s.(rows := map[0 := RequeuedRow(s.rows[0], 10_000)]);
  }

  // Whether or not it has expired, a claim is taken away by a sweep if and only if the row
  // was selected and the database does not refuse the update.
  lemma SweepTakesClaimIff(s: State, step: Step, id: QueueId)
    requires Fenced(s) && id in s.rows && s.rows[id].status.Processing? && step.SweepUpdate?
    ensures !HeldBy(Next(s, step).rows[id], s.rows[id].claimOwner.value, s.rows[id].claimToken.value)
       <==> (Sweeps(s, step, id) && !SweepRefused(s, step))
    ensures Next(s, step).rows[id] != s.rows[id] <==> (Sweeps(s, step, id) && !SweepRefused(s, step))
  {
    assert RowFenced(s, id);
  }

  // The lease theorem needs NoSweepPending: a delayed sweep also takes away a
  // claim made after it, long before that claim expires.
  lemma SplitSweepStealsFreshClaim(s: State)
    requires SweepDelayed(s)
    ensures var claimed := ReclaimedState(s);
      && 0 in claimed.rows && HeldBy(claimed.rows[0], "c", 101) && !Expired(claimed.rows[0], 19_999)
      && !Current(Next(claimed, SweepUpdate(2, 10_000, TRACE_CFG)).rows, 101)
  {
    ReclaimedRow(s);
    PendingSweepWrites(ReclaimedState(s), RequeuedRow(s.rows[0], 10_000), 10_000);
  }

  lemma PendingSweepWrites(claimed: State, row: Row, now: Time)
    requires claimed.sweeps == map[2 := {0}]
    requires claimed.rows == map[0 := ClaimedRow(row, "c", 101, now, TRACE_CFG)]
    ensures !Current(Next(claimed, SweepUpdate(2, now, TRACE_CFG)).rows, 101)
  {
    assert PrIndexHolds(RequeueIds(claimed.rows, {0}, now));
  }
}
