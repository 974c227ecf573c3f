// Any number of judge workers sharing one merge-queue table, as a transition
// system. A step is one atomic statement of one worker, or one move of its
// program; the worker's clock reading, its settings and what it is told by the
// outside world are carried by the step, so nothing ties the clocks together.
module MergeQueueProtocol {
  import opened Options
  import opened MergeQueueTable

  type WorkerId = nat

  // What a worker remembers of the row it claimed.
  datatype Snapshot = Snapshot(id: QueueId, token: Token, attemptCount: nat, maxAttempts: nat)

  // Where a worker is inside the processing of one row.
  //   Holding      claimed, merge attempt under way
  //   Finalized    its finalize was applied, bookkeeping under way
  //   Owing        its finalize wrote "failed", escalation not started yet
  //   Catching     an exception was caught, finalize about to be tried again
  //   OwingInCatch the finalize of the catch block wrote "failed"
  datatype Phase =
    | Idle
    | Holding(claim: Snapshot)
    | Finalized(claim: Snapshot)
    | Owing(claim: Snapshot)
    | Catching(claim: Snapshot)
    | OwingInCatch(claim: Snapshot)

  datatype Worker = Worker(agent: AgentId, phase: Phase)

  // Who received a claim token, for which row, and what the row's counters were.
  datatype Grant = Grant(w: WorkerId, agent: AgentId, id: QueueId, attemptCount: nat, maxAttempts: nat)

  // One finalize that updated a row.
  datatype Applied = Applied(id: QueueId, token: Token)

  datatype State = State(
    rows: Table,
    workers: map<WorkerId, Worker>,
    sweeps: map<WorkerId, set<QueueId>>,  // expired ids selected, update not sent yet
    issued: map<Token, Grant>,            // every claim token that was ever written to a row
    applied: seq<Applied>,                // finalizes that updated a row, in order
    escalated: seq<QueueId>)              // failure escalations started, in order

  datatype Step =
    | Start(w: WorkerId, agent: AgentId)
    | Enqueue(id: QueueId, prNumber: int, taskId: nat, runId: nat, priority: int,
              reason: Option<string>, now: Time, cfg: Config)
    | Claim(w: WorkerId, id: QueueId, token: Token, now: Time, cfg: Config)
    | Renew(id: QueueId, agent: AgentId, token: Token, now: Time, cfg: Config)
    | Finalize(w: WorkerId, merged: bool, failure: string, now: Time, cfg: Config)
    | Throw(w: WorkerId)
    | CatchFinalize(w: WorkerId, failure: string, now: Time, cfg: Config)
    | Escalate(w: WorkerId)
    | Finish(w: WorkerId)
    | Crash(w: WorkerId)
    | SweepSelect(w: WorkerId, now: Time)
    | SweepUpdate(w: WorkerId, now: Time, cfg: Config)
    | Release(agent: AgentId, now: Time, cfg: Config)

  const INIT := State(map[], map[], map[], map[], [], [])

  predicate Busy(p: Phase) {
    !p.Idle?
  }

  predicate InDebt(p: Phase) {
    p.Owing? || p.OwingInCatch?
  }

  function SetPhase(s: State, w: WorkerId, p: Phase): State
    requires w in s.workers
  {
    s.(workers := s.workers[w := s.workers[w].(phase := p)])
  }

  // Does the guard of the finalize statement match a row?
  predicate GuardMatches(s: State, agent: AgentId, claim: Snapshot) {
    claim.id in s.rows && HeldBy(s.rows[claim.id], agent, claim.token)
  }

  // finalizeQueueItem, followed by the branch the caller takes on its result.
  function FinalizeRow(s: State, w: WorkerId, claim: Snapshot, status: Status, nextAttemptAt: Time,
                       lastError: Option<string>, ifApplied: Phase, ifLost: Phase): State
    requires w in s.workers
  {
    if GuardMatches(s, s.workers[w].agent, claim) then
      var row := FinalizedRow(s.rows[claim.id], status, claim.attemptCount + 1, nextAttemptAt, lastError);
      var applied := s.applied + [Applied(claim.id, claim.token)];
      SetPhase(s.(rows := s.rows[claim.id := row], applied := applied), w, ifApplied)
    else
      SetPhase(s, w, ifLost)
  }

  // A claim needs an idle worker, a token nobody holds yet, and a row its WHERE clause matches.
  predicate ClaimEnabled(s: State, w: WorkerId, id: QueueId, token: Token, now: Time) {
    && w in s.workers && s.workers[w].phase.Idle?
    && token !in s.issued
    && id in s.rows && Claimable(s.rows[id], now)
  }

  // Which finalize a merge attempt leads to.
  function StatusAfterFailure(claim: Snapshot): Status {
    if claim.attemptCount + 1 < claim.maxAttempts then Pending else Failed
  }

  function RetryTime(status: Status, now: Time, cfg: Config): Time {
    if status.Pending? then now + ResolveRetryDelayMs(cfg) else now
  }

  // One step; a step that is not enabled changes nothing.
  function Next(s: State, step: Step): State {
    match step
    case Start(w, agent) =>
      if w in s.workers then s else s.(workers := s.workers[w := Worker(agent, Idle)])
    case Enqueue(id, prNumber, taskId, runId, priority, reason, now, cfg) =>
      var row := NewRow(prNumber, taskId, runId, priority, reason, now, cfg);
      if InsertAllowed(s.rows, id, row) then s.(rows := s.rows[id := row]) else s
    case Claim(w, id, token, now, cfg) =>
      if ClaimEnabled(s, w, id, token, now) then
        var agent := s.workers[w].agent;
        var row := ClaimedRow(s.rows[id], agent, token, now, cfg);
        var grant := Grant(w, agent, id, row.attemptCount, row.maxAttempts);
        SetPhase(s.(rows := s.rows[id := row], issued := s.issued[token := grant]), w,
                 Holding(Snapshot(id, token, row.attemptCount, row.maxAttempts)))
      else s
    case Renew(id, agent, token, now, cfg) =>
      if id in s.rows && HeldBy(s.rows[id], agent, token) then
        s.(rows := s.rows[id := s.rows[id].(claimExpiresAt := Some(now + ResolveClaimTtlMs(cfg)))])
      else s
    case Finalize(w, merged, failure, now, cfg) =>
      if w !in s.workers || !s.workers[w].phase.Holding? then s
      else
        var claim := s.workers[w].phase.claim;
        if merged then FinalizeRow(s, w, claim, Merged, now, None, Finalized(claim), Idle)
        else
          var status := StatusAfterFailure(claim);
          FinalizeRow(s, w, claim, status, RetryTime(status, now, cfg), Some(failure),
                      if status.Failed? then Owing(claim) else Finalized(claim), Idle)
    case Throw(w) =>
      if w in s.workers
         && (s.workers[w].phase.Holding? || s.workers[w].phase.Finalized? || s.workers[w].phase.Owing?) then
        SetPhase(s, w, Catching(s.workers[w].phase.claim))
      else s
    case CatchFinalize(w, failure, now, cfg) =>
      if w !in s.workers || !s.workers[w].phase.Catching? then s
      else
        var claim := s.workers[w].phase.claim;
        var status := StatusAfterFailure(claim);
        FinalizeRow(s, w, claim, status, RetryTime(status, now, cfg), Some(failure),
                    if status.Failed? then OwingInCatch(claim) else Idle, Idle)
    case Escalate(w) =>
      if w in s.workers && InDebt(s.workers[w].phase) then
        var p := s.workers[w].phase;
        SetPhase(s.(escalated := s.escalated + [p.claim.id]), w, if p.Owing? then Finalized(p.claim) else Idle)
      else s
    case Finish(w) =>
      if w in s.workers && s.workers[w].phase.Finalized? then SetPhase(s, w, Idle) else s
    case Crash(w) =>
      if w in s.workers then SetPhase(s, w, Idle).(sweeps := s.sweeps - {w}) else s
    case SweepSelect(w, now) =>
      s.(sweeps := s.sweeps[w := ExpiredIds(s.rows, now)])
    case SweepUpdate(w, now, cfg) =>
      if w !in s.sweeps then s
      else
        var rows := RequeueIds(s.rows, s.sweeps[w], now + ResolveRetryDelayMs(cfg));
        s.(rows := if PrIndexHolds(rows) then rows else s.rows, sweeps := s.sweeps - {w})
    case Release(agent, now, cfg) =>
      s.(rows := RequeueIds(s.rows, OwnedIds(s.rows, agent), now + ResolveRetryDelayMs(cfg)))
  }

  function Run(s: State, steps: seq<Step>): State {
    if steps == [] then s else Next(Run(s, steps[..|steps| - 1]), steps[|steps| - 1])
  }

  lemma RunSnoc(s: State, steps: seq<Step>, last: Step)
    ensures Run(s, steps + [last]) == Next(Run(s, steps), last)
  {
    assert (steps + [last])[..|steps|] == steps;
  }

  ghost predicate Reachable(s: State) {
    exists steps :: Run(INIT, steps) == s
  }

  lemma InitIsReachable()
    ensures Reachable(INIT)
  {
    assert Run(INIT, []) == INIT;
  }

  lemma NextIsReachable(s: State, step: Step)
    requires Reachable(s)
    ensures Reachable(Next(s, step))
  {
    var steps :| Run(INIT, steps) == s;
    RunSnoc(INIT, steps, step);
  }

  // Running one list after another is running their concatenation.
  lemma {:induction false} RunConcat(s: State, a: seq<Step>, b: seq<Step>)
    ensures Run(s, a + b) == Run(Run(s, a), b)
  {
    if b == [] {
      assert a + b == a;
    } else {
      var prefix := b[..|b| - 1];
      assert (a + b)[..|a + b| - 1] == a + prefix && (a + b)[|a + b| - 1] == b[|b| - 1];
      RunConcat(s, a, prefix);
    }
  }
}
