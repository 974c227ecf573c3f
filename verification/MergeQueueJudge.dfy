// The judge's own code: enqueue, claim with retries, process one row, process a
// batch. Between any two statements the other judges take arbitrary steps, given
// by `others`; what the outside world answers is given by the other arguments.
module MergeQueueJudge {
  import opened Options
  import opened MergeQueueTable
  import opened MergeQueueProtocol
  import opened MergeQueueFencing
  import opened MergeQueueLifecycle

  const MERGE_QUEUE_BATCH_LIMIT := 3
  const CLAIM_ATTEMPTS := 5

  datatype QueueLookup = QueueLookup(id: QueueId, status: Status)

  datatype EnqueueResult =
    | Enqueued(queueId: QueueId)
    | ExistingActiveQueue(found: QueueLookup)
    | DuplicateSourceRun(found: QueueLookup)
    | InsertFailed

  // What attemptMergeForApprovedPR does; it may also raise.
  datatype MergeAttempt = MergeDone | MergeDeferred(reason: string) | MergeRaises(reason: string)

  datatype Outcome = OutMerged | OutRetry | OutFailed

  // What processMergeQueue reports.
  datatype Counts = Counts(recovered: nat, processed: nat, merged: nat, retried: nat, failed: nat)

  // Order of the dequeue index: priority descending, then due time, then creation time.
  predicate DequeuedBefore(a: Row, b: Row) {
    || a.priority > b.priority
    || (a.priority == b.priority && a.nextAttemptAt < b.nextAttemptAt)
    || (a.priority == b.priority && a.nextAttemptAt == b.nextAttemptAt && a.createdAt < b.createdAt)
  }

  predicate FirstInLine(t: Table, now: Time, id: QueueId) {
    && id in t && Claimable(t[id], now)
    && forall other :: other in t && Claimable(t[other], now) ==> !DequeuedBefore(t[other], t[id])
  }

  lemma {:induction false} SomeoneIsFirst(t: Table, now: Time, ids: set<QueueId>) returns (first: QueueId)
    requires ids != {} && forall id :: id in ids ==> id in t
    ensures first in ids
    ensures forall other :: other in ids ==> !DequeuedBefore(t[other], t[first])
    decreases |ids|
  {
    var id :| id in ids;
    if ids == {id} {
      first := id;
    } else {
      var best := SomeoneIsFirst(t, now, ids - {id});
      first := if DequeuedBefore(t[id], t[best]) then id else best;
    }
  }

  // Steps taken on behalf of a worker.
  predicate ActsFor(step: Step, w: WorkerId) {
    match step
    case Start(v, _) => v == w
    case Claim(v, _, _, _, _) => v == w
    case Finalize(v, _, _, _, _) => v == w
    case Throw(v) => v == w
    case CatchFinalize(v, _, _, _) => v == w
    case Escalate(v) => v == w
    case Finish(v) => v == w
    case Crash(v) => v == w
    case SweepSelect(v, _) => v == w
    case SweepUpdate(v, _, _) => v == w
    case _ => false
  }

  predicate Quiet(steps: seq<Step>, w: WorkerId) {
    forall k :: 0 <= k < |steps| ==> !ActsFor(steps[k], w)
  }

  lemma ProgramStepKeepsOthers(s: State, step: Step, w: WorkerId)
    requires !ActsFor(step, w)
    requires step.Finalize? || step.CatchFinalize? || step.Throw? || step.Escalate? || step.Finish? || step.Crash?
    ensures w in s.workers <==> w in Next(s, step).workers
    ensures w in s.workers ==> Next(s, step).workers[w] == s.workers[w]
    ensures w in s.sweeps <==> w in Next(s, step).sweeps
    ensures w in s.sweeps ==> Next(s, step).sweeps[w] == s.sweeps[w]
  {
  }

  lemma OthersKeepWorker(s: State, step: Step, w: WorkerId)
    requires !ActsFor(step, w)
    ensures w in s.workers <==> w in Next(s, step).workers
    ensures w in s.workers ==> Next(s, step).workers[w] == s.workers[w]
    ensures w in s.sweeps <==> w in Next(s, step).sweeps
    ensures w in s.sweeps ==> Next(s, step).sweeps[w] == s.sweeps[w]
  {
    if step.Finalize? || step.CatchFinalize? || step.Throw? || step.Escalate? || step.Finish? || step.Crash? {
      ProgramStepKeepsOthers(s, step, w);
    }
  }

  // A row whose identity matches an enqueue request by pull request or by source pair.
  predicate SamePr(t: Table, id: QueueId, prNumber: int) {
    id in t && t[id].prNumber == prNumber
  }

  predicate SameSource(t: Table, id: QueueId, taskId: nat, runId: nat) {
    id in t && t[id].taskId == taskId && t[id].runId == runId
  }

  // Rows stay and keep who they are for.
  ghost predicate RowsGrow(t: Table, u: Table) {
    forall id :: id in t ==>
      id in u && u[id].prNumber == t[id].prNumber && u[id].taskId == t[id].taskId && u[id].runId == t[id].runId
  }

  lemma RowsGrowInStep(s: State, step: Step)
    ensures RowsGrow(s.rows, Next(s, step).rows)
  {
    forall id | id in s.rows
      ensures id in Next(s, step).rows
      ensures Next(s, step).rows[id].prNumber == s.rows[id].prNumber
      ensures Next(s, step).rows[id].taskId == s.rows[id].taskId && Next(s, step).rows[id].runId == s.rows[id].runId
    {
      RowsAreKept(s, step, id);
    }
  }

  lemma {:induction false} IssuedGrowsInRun(before: seq<Step>, after: seq<Step>)
    requires before <= after
    ensures Run(INIT, before).issued.Keys <= Run(INIT, after).issued.Keys
    decreases |after|
  {
    if before != after {
      IssuedGrowsInRun(before, after[..|after| - 1]);
      IssuedOnlyGrows(Run(INIT, after[..|after| - 1]), after[|after| - 1]);
    }
  }

  // What happens around the processing of one claimed row: the answer of the
  // merge attempt, whether the bookkeeping after an applied finalize raises, whether
  // the escalation raises before it starts, and the other judges' steps.
  datatype RowWorld = RowWorld(
    now: Time,
    tokens: nat -> Token,
    whileClaiming: nat -> seq<Step>,
    beforeFinalize: seq<Step>,
    merge: MergeAttempt,
    afterFinalize: seq<Step>,
    bookkeepingRaises: bool,
    escalationRaises: bool,
    failure: string)
  {
    ghost predicate QuietFor(w: WorkerId) {
      && (forall n :: Quiet(whileClaiming(n), w))
      && Quiet(beforeFinalize, w) && Quiet(afterFinalize, w)
    }
  }

  // Between two histories a finalize moved the claimed row from processing to merged.
  ghost predicate MergedBy(before: seq<Step>, after: seq<Step>, claim: Snapshot) {
    exists mid :: before <= mid <= after && MergedAt(mid, claim.id)
  }

  ghost predicate MergedAt(steps: seq<Step>, id: QueueId) {
    id in Run(INIT, steps).rows && Run(INIT, steps).rows[id].status.Merged?
  }

  // The rows named are merged and pairwise different, provided no stale sweep ran.
  ghost predicate MergedDistinct(steps: seq<Step>, ids: seq<QueueId>) {
    BenignRun(INIT, steps) ==>
      && (forall k :: 0 <= k < |ids| ==> MergedAt(steps, ids[k]))
      && (forall j, k :: 0 <= j < k < |ids| ==> ids[j] != ids[k])
  }

  lemma BenignPrefix(s: State, before: seq<Step>, after: seq<Step>)
    requires before <= after && BenignRun(s, after)
    ensures BenignRun(s, before)
  {
    forall k | 0 <= k < |before| ensures Benign(Run(s, before[..k]), before[k]) {
      assert before[..k] == after[..k];
      assert Benign(Run(s, after[..k]), after[k]);
    }
  }

  lemma BenignSplits(s: State, before: seq<Step>, after: seq<Step>)
    requires before <= after && BenignRun(s, after)
    ensures BenignRun(s, before) && BenignRun(Run(s, before), after[|before|..])
    ensures Run(s, after) == Run(Run(s, before), after[|before|..])
  {
    var rest := after[|before|..];
    assert after == before + rest;
    RunConcat(s, before, rest);
    BenignPrefix(s, before, after);
    forall k | 0 <= k < |rest|
      ensures Benign(Run(Run(s, before), rest[..k]), rest[k])
    {
      RunConcat(s, before, rest[..k]);
      assert before + rest[..k] == after[..|before| + k];
      assert Benign(Run(s, after[..|before| + k]), after[|before| + k]);
    }
  }

  lemma MergedAtStays(before: seq<Step>, after: seq<Step>, id: QueueId)
    requires before <= after && BenignRun(INIT, after) && MergedAt(before, id)
    ensures MergedAt(after, id)
  {
    BenignSplits(INIT, before, after);
    FinishedRowsStayFinished(Run(INIT, before), after[|before|..], id);
  }

  lemma MergedDistinctStays(before: seq<Step>, after: seq<Step>, ids: seq<QueueId>)
    requires before <= after && MergedDistinct(before, ids)
    ensures MergedDistinct(after, ids)
  {
    if BenignRun(INIT, after) {
      BenignSplits(INIT, before, after);
      forall k | 0 <= k < |ids|
        ensures MergedAt(after, ids[k])
      {
        MergedAtStays(before, after, ids[k]);
      }
    }
  }

  // A row that was claimed after some rows had merged is none of them.
  lemma MergedDistinctExtends(before: seq<Step>, after: seq<Step>, claim: Snapshot, ids: seq<QueueId>)
    requires before <= after && MergedDistinct(before, ids) && MergedBy(before, after, claim)
    requires claim.id in Run(INIT, before).rows && Run(INIT, before).rows[claim.id].status.Processing?
    ensures MergedDistinct(after, ids + [claim.id])
  {
    MergedDistinctStays(before, after, ids);
    if BenignRun(INIT, after) {
      BenignSplits(INIT, before, after);
      var mid :| before <= mid <= after && MergedAt(mid, claim.id);
      MergedAtStays(mid, after, claim.id);
    }
  }

  // The finalize of the catch block adds one to the row's own attempt count.
  lemma CatchCountsAttempt(history: seq<Step>, w: WorkerId, failure: string, now: Time, cfg: Config)
    requires var s := Run(INIT, history);
      && w in s.workers && s.workers[w].phase.Catching?
      && GuardMatches(s, s.workers[w].agent, s.workers[w].phase.claim)
    ensures var s := Run(INIT, history);
      var id := s.workers[w].phase.claim.id;
      Next(s, CatchFinalize(w, failure, now, cfg)).rows[id].attemptCount == s.rows[id].attemptCount + 1
  {
    RunKeepsFences(INIT, history);
    FinalizeAppliesIffTokenCurrent(Run(INIT, history), CatchFinalize(w, failure, now, cfg));
  }

  // The rows of an update by id, or none when it would break the index on active rows.
  function Requeued(t: Table, ids: set<QueueId>, nextAttemptAt: Time): Option<Table> {
    if PrIndexHolds(RequeueIds(t, ids, nextAttemptAt)) then Some(RequeueIds(t, ids, nextAttemptAt)) else None
  }

  lemma SweepWrites(s: State, w: WorkerId, now: Time, cfg: Config, requeued: Option<Table>)
    requires w in s.sweeps && requeued == Requeued(s.rows, s.sweeps[w], now + ResolveRetryDelayMs(cfg))
    ensures Next(s, SweepUpdate(w, now, cfg)).rows == if requeued.Some? then requeued.value else s.rows
    ensures Next(s, SweepUpdate(w, now, cfg)).workers == s.workers
  {
  }

  // Why an insert was refused although, later, no row of the source pair is there.
  lemma RefusedInsertConflicted(t: Table, u: Table, v: Table, id: QueueId, row: Row)
    requires RowsGrow(t, u) && RowsGrow(u, v) && Active(row) && !InsertAllowed(t, id, row)
    requires forall q :: q in v ==> !SameSource(v, q, row.taskId, row.runId)
    ensures id in t || exists q :: SamePr(t, q, row.prNumber) && Active(t[q]) && SamePr(u, q, row.prNumber)
  {
    if id !in t {
      forall q | q in t ensures !SameSource(t, q, row.taskId, row.runId) {
        assert q in u && q in v && !SameSource(v, q, row.taskId, row.runId);
      }
      var q :| q in t && Active(t[q]) && t[q].prNumber == row.prNumber;
      assert SamePr(t, q, row.prNumber) && SamePr(u, q, row.prNumber);
    }
  }

  class SharedQueue {
    var state: State
    ghost var history: seq<Step>

    // Whatever the judges have done so far, the state is the one their steps lead to.
    ghost predicate Valid()
      reads this
    {
      state == Run(INIT, history)
    }

    constructor ()
      ensures Valid() && state == INIT && history == []
    {
      state := INIT;
      history := [];
    }

    method Take(step: Step)
      requires Valid()
      modifies this
      ensures Valid() && history == old(history) + [step] && state == Next(old(state), step)
    {
      RunSnoc(INIT, history, step);
      state := Next(state, step);
      history := history + [step];
    }

    method Others(steps: seq<Step>, ghost w: WorkerId)
      requires Valid() && Quiet(steps, w)
      modifies this
      ensures Valid() && history == old(history) + steps
      ensures w in state.workers <==> w in old(state).workers
      ensures w in state.workers ==> state.workers[w] == old(state).workers[w]
      ensures w in state.sweeps <==> w in old(state).sweeps
      ensures w in state.sweeps ==> state.sweeps[w] == old(state).sweeps[w]
      ensures RowsGrow(old(state).rows, state.rows)
    {
      for k := 0 to |steps|
        invariant Valid() && history == old(history) + steps[..k]
        invariant w in state.workers <==> w in old(state).workers
        invariant w in state.workers ==> state.workers[w] == old(state).workers[w]
        invariant w in state.sweeps <==> w in old(state).sweeps
        invariant w in state.sweeps ==> state.sweeps[w] == old(state).sweeps[w]
        invariant RowsGrow(old(state).rows, state.rows)
      {
        OthersKeepWorker(state, steps[k], w);
        RowsGrowInStep(state, steps[k]);
        Take(steps[k]);
        assert steps[..k + 1] == steps[..k] + [steps[k]];
      }
      assert steps[..|steps|] == steps;
    }

    // A pending or processing row of a pull request, if there is one.
    method GetActiveQueueByPrNumber(prNumber: int) returns (found: Option<QueueLookup>)
      ensures found.Some? ==>
        && SamePr(state.rows, found.value.id, prNumber) && Active(state.rows[found.value.id])
        && found.value.status == state.rows[found.value.id].status
      ensures found.None? ==> forall id :: id in state.rows && Active(state.rows[id]) ==>
        state.rows[id].prNumber != prNumber
    {
      if id :| id in state.rows && Active(state.rows[id]) && state.rows[id].prNumber == prNumber {
        return Some(QueueLookup(id, state.rows[id].status));
      }
      return None;
    }

    // The row of a (task, run) pair, if there is one.
    method GetQueueBySourcePair(taskId: nat, runId: nat) returns (found: Option<QueueLookup>)
      ensures found.Some? ==>
        && SameSource(state.rows, found.value.id, taskId, runId)
        && found.value.status == state.rows[found.value.id].status
      ensures found.None? ==> forall id :: id in state.rows ==> !SameSource(state.rows, id, taskId, runId)
    {
      if id :| id in state.rows && SameSource(state.rows, id, taskId, runId) {
        return Some(QueueLookup(id, state.rows[id].status));
      }
      return None;
    }

    // enqueueMergeQueueItem: two reads, the insert, and two more reads when the
    // insert hit a unique index; `others` is what the other judges do in between.
    // Every result that names a row names one that was there when it was read, for
    // the same pull request and still active then, or for the same source pair; and
    // rows are never deleted. A refused insert that finds neither means that the new id
    // was taken, or that a row of the pull request was active at the insert, after `tried`,
    // and had finished when the pull request was read again, after `at`.
    method EnqueueMergeQueueItem(id: QueueId, prNumber: int, taskId: nat, runId: nat, priority: int,
                                 reason: Option<string>, now: Time, cfg: Config, w: WorkerId, others: nat -> seq<Step>)
      returns (r: EnqueueResult, ghost tried: seq<Step>, ghost at: seq<Step>)
      requires Valid() && forall n :: Quiet(others(n), w)
      modifies this
      ensures Valid() && old(history) <= tried <= at <= history
      ensures var t := Run(INIT, at).rows;
        match r
        case Enqueued(q) =>
          && q == id && id !in t
          && history == at + [Enqueue(id, prNumber, taskId, runId, priority, reason, now, cfg)]
          && SamePr(state.rows, id, prNumber) && SameSource(state.rows, id, taskId, runId)
        case ExistingActiveQueue(found) =>
          && SamePr(t, found.id, prNumber) && Active(t[found.id]) && found.status == t[found.id].status
          && SamePr(state.rows, found.id, prNumber)
        case DuplicateSourceRun(found) =>
          && SameSource(t, found.id, taskId, runId) && found.status == t[found.id].status
          && SameSource(state.rows, found.id, taskId, runId)
        case InsertFailed =>
          && (forall q :: q in state.rows ==> !SameSource(state.rows, q, taskId, runId))
          && (forall q :: SamePr(t, q, prNumber) ==> !Active(t[q]))
          && (id in Run(INIT, tried).rows
              || exists q :: SamePr(Run(INIT, tried).rows, q, prNumber) && Active(Run(INIT, tried).rows[q])
                   && SamePr(t, q, prNumber))
    {
      at, tried := history, history;
      var found := GetActiveQueueByPrNumber(prNumber);
      if found.Some? {
        return ExistingActiveQueue(found.value), tried, at;
      }
      Others(others(0), w);
      at := history;
      found := GetQueueBySourcePair(taskId, runId);
      if found.Some? {
        return DuplicateSourceRun(found.value), tried, at;
      }
      Others(others(1), w);
      at, tried := history, history;
      var row := NewRow(prNumber, taskId, runId, priority, reason, now, cfg);
      if InsertAllowed(state.rows, id, row) {
        Take(Enqueue(id, prNumber, taskId, runId, priority, reason, now, cfg));
        return Enqueued(id), tried, at;
      }
      ghost var t := state.rows;
      Others(others(2), w);
      at := history;
      found := GetActiveQueueByPrNumber(prNumber);
      if found.Some? {
        return ExistingActiveQueue(found.value), tried, at;
      }
      ghost var u := state.rows;
      Others(others(3), w);
      found := GetQueueBySourcePair(taskId, runId);
      if found.Some? {
        at := history;
        return DuplicateSourceRun(found.value), tried, at;
      }
      RefusedInsertConflicted(t, u, state.rows, id, row);
      r := InsertFailed;
    }

    // recoverExpiredClaims: select, then update by id. The other judges may act in between.
    // None stands for the exception raised when the update breaks the index on active
    // rows: the whole statement then changes nothing.
    method RecoverExpiredClaims(w: WorkerId, now: Time, cfg: Config, others: seq<Step>)
      returns (recovered: Option<nat>, ghost before: State)
      requires Valid() && Quiet(others, w)
      modifies this
      ensures Valid()
      ensures w in state.workers <==> w in old(state).workers
      ensures w in state.workers ==> state.workers[w] == old(state).workers[w]
      ensures history == old(history) + [SweepSelect(w, now)] + others + [SweepUpdate(w, now, cfg)]
      ensures before == Run(INIT, old(history) + [SweepSelect(w, now)] + others)
      ensures var ids := ExpiredIds(old(state).rows, now);
        match Requeued(before.rows, ids, now + ResolveRetryDelayMs(cfg))
        case Some(rows) => recovered == Some(|ids|) && state.rows == rows
        case None => recovered == None && state.rows == before.rows
    {
      Take(SweepSelect(w, now));
      var expired := state.sweeps[w];
      Others(others, w);
      before := state;
      var requeued := Requeued(state.rows, expired, now + ResolveRetryDelayMs(cfg));
      SweepWrites(state, w, now, cfg, requeued);
      Take(SweepUpdate(w, now, cfg));
      recovered := if requeued.Some? then Some(|expired|) else None;
    }

    // releaseMergeQueueClaimsByOwner: exactly the processing rows of that owner go
    // back to pending, each without its claim.
    method ReleaseMergeQueueClaimsByOwner(agent: AgentId, now: Time, cfg: Config) returns (released: nat)
      requires Valid()
      modifies this
      ensures Valid() && history == old(history) + [Release(agent, now, cfg)]
      ensures released == |OwnedIds(old(state).rows, agent)|
      ensures OwnedIds(state.rows, agent) == {}
      ensures state.rows.Keys == old(state).rows.Keys
      ensures forall id :: id in state.rows && id !in OwnedIds(old(state).rows, agent) ==>
        state.rows[id] == old(state).rows[id]
    {
      released := |OwnedIds(state.rows, agent)|;
      Take(Release(agent, now, cfg));
    }

    // The due row that is first in the dequeue order.
    method SelectCandidate(now: Time) returns (candidate: Option<QueueId>)
      ensures candidate.Some? ==> FirstInLine(state.rows, now, candidate.value)
      ensures candidate.None? ==> forall id :: id in state.rows ==> !Claimable(state.rows[id], now)
    {
      if id :| id in state.rows && Claimable(state.rows[id], now) {
        ghost var due := set other | other in state.rows && Claimable(state.rows[other], now);
        assert id in due;
        ghost var best := SomeoneIsFirst(state.rows, now, due);
        assert FirstInLine(state.rows, now, best);
        var first :| first in state.rows && FirstInLine(state.rows, now, first);
        return Some(first);
      }
      return None;
    }

    // claimNextPendingQueueItem: up to five times, read the first due row and try to
    // take it with a guarded update. It comes back empty-handed only when nothing
    // was due, or when other judges won the race five times.
    method ClaimNextPendingQueueItem(w: WorkerId, now: Time, cfg: Config, tokens: nat -> Token,
                                     others: nat -> seq<Step>)
      returns (claimed: Option<Snapshot>, ghost losses: nat, ghost seen: seq<Step>)
      requires Valid() && w in state.workers && state.workers[w].phase.Idle?
      requires forall n :: Quiet(others(n), w)
      modifies this
      ensures Valid() && old(history) <= history
      ensures w in state.workers && state.workers[w].agent == old(state).workers[w].agent
      ensures claimed.None? ==> state.workers[w].phase.Idle?
      ensures claimed.None? ==>
        losses == CLAIM_ATTEMPTS || forall id :: id in state.rows ==> !Claimable(state.rows[id], now)
      ensures claimed.Some? ==> losses < CLAIM_ATTEMPTS
      ensures claimed.Some? ==>
        var c := claimed.value;
        && state.workers[w].phase == Holding(c)
        && c.id in state.rows && HeldBy(state.rows[c.id], state.workers[w].agent, c.token)
        && c.token !in old(state).issued
        && old(history) <= seen <= history && FirstInLine(Run(INIT, seen).rows, now, c.id)
    {
      losses := 0;
      seen := history;
      for attempt := 0 to CLAIM_ATTEMPTS
        invariant Valid() && old(history) <= history && losses == attempt
        invariant w in state.workers && state.workers[w] == old(state).workers[w]
        invariant old(state).issued.Keys <= state.issued.Keys
      {
        var candidate := SelectCandidate(now);
        if candidate.None? {
          return None, losses, seen;
        }
        seen := history;
        Others(others(attempt), w);
        IssuedGrowsInRun(seen, history);
        if ClaimEnabled(state, w, candidate.value, tokens(attempt), now) {
          Take(Claim(w, candidate.value, tokens(attempt), now, cfg));
          return Some(state.workers[w].phase.claim), losses, seen;
        }
        losses := losses + 1;
      }
      claimed := None;
    }

    // finalizeQueueItem as seen by its caller: whether the update matched the row.
    method FinalizeClaim(w: WorkerId, merged: bool, failure: string, now: Time, cfg: Config) returns (applied: bool)
      requires Valid() && w in state.workers && state.workers[w].phase.Holding?
      modifies this
      ensures Valid() && history == old(history) + [Finalize(w, merged, failure, now, cfg)]
      ensures w in state.workers && state.workers[w].agent == old(state).workers[w].agent
      ensures var claim := old(state).workers[w].phase.claim;
        && applied == GuardMatches(old(state), old(state).workers[w].agent, claim)
        && state.workers[w].phase == (
             if !applied then Idle
             else if !merged && StatusAfterFailure(claim).Failed? then Owing(claim) else Finalized(claim))
        && (applied && merged ==> MergedAt(history, claim.id))
    {
      var claim := state.workers[w].phase.claim;
      applied := GuardMatches(state, state.workers[w].agent, claim);
      Take(Finalize(w, merged, failure, now, cfg));
    }

    // Escalation if it is owed, then the events and task updates; None when one of them raises.
    method AfterFinalize(w: WorkerId, world: RowWorld) returns (done: bool)
      requires Valid() && w in state.workers && (state.workers[w].phase.Finalized? || state.workers[w].phase.Owing?)
      requires world.QuietFor(w)
      modifies this
      ensures Valid() && old(history) <= history
      ensures w in state.workers && state.workers[w].agent == old(state).workers[w].agent
      ensures state.workers[w].phase == if done then Idle else Catching(old(state).workers[w].phase.claim)
    {
      if state.workers[w].phase.Owing? {
        if world.escalationRaises {
          Take(Throw(w));
          return false;
        }
        Take(Escalate(w));
      }
      Others(world.afterFinalize, w);
      if world.bookkeepingRaises {
        Take(Throw(w));
        return false;
      }
      Take(Finish(w));
      done := true;
    }

    // processQueueRow for a claimed row. None stands for an exception, which may come
    // from the merge attempt or from the bookkeeping after an applied finalize.
    // "merged" is only ever reported for a row that this call moved to merged.
    method ProcessQueueRow(w: WorkerId, world: RowWorld, cfg: Config) returns (r: Option<Outcome>)
      requires Valid() && w in state.workers && state.workers[w].phase.Holding? && world.QuietFor(w)
      modifies this
      ensures Valid() && old(history) <= history
      ensures w in state.workers && state.workers[w].agent == old(state).workers[w].agent
      ensures r.Some? ==> state.workers[w].phase.Idle?
      ensures r.None? ==> state.workers[w].phase == Catching(old(state).workers[w].phase.claim)
      ensures r == Some(OutMerged) ==> MergedBy(old(history), history, old(state).workers[w].phase.claim)
    {
      var claim := state.workers[w].phase.claim;
      Others(world.beforeFinalize, w);
      if world.merge.MergeRaises? {
        Take(Throw(w));
        return None;
      }
      var merged := world.merge.MergeDone?;
      var failure := if merged then "" else world.merge.reason;
      var applied := FinalizeClaim(w, merged, failure, world.now, cfg);
      if !applied {
        return Some(OutRetry);
      }
      ghost var finalized := history;
      var last := state.workers[w].phase.Owing?;
      var done := AfterFinalize(w, world);
      assert merged ==> finalized <= history && MergedAt(finalized, claim.id);
      r := if !done then None
           else if merged then Some(OutMerged)
           else if last then Some(OutFailed) else Some(OutRetry);
    }

    // The catch block: count the failed attempt, unless the claim is gone or was
    // already finalized before the exception.
    method CatchFailure(w: WorkerId, failure: string, now: Time, cfg: Config) returns (r: Outcome)
      requires Valid() && w in state.workers && state.workers[w].phase.Catching?
      modifies this
      ensures Valid() && old(history) <= history
      ensures w in state.workers && state.workers[w] == old(state).workers[w].(phase := Idle)
      ensures var claim := old(state).workers[w].phase.claim;
        var status := StatusAfterFailure(claim);
        && r == (if status.Pending? then OutRetry else OutFailed)
        && if GuardMatches(old(state), old(state).workers[w].agent, claim) then
             && state.rows.Keys == old(state).rows.Keys
             && state.rows[claim.id].status == status && state.rows[claim.id].lastError == Some(failure)
             && state.rows[claim.id].attemptCount == old(state).rows[claim.id].attemptCount + 1
             && (forall id :: id in state.rows && id != claim.id ==> state.rows[id] == old(state).rows[id])
             && state.applied == old(state).applied + [Applied(claim.id, claim.token)]
             && state.escalated == old(state).escalated + (if status.Failed? then [claim.id] else [])
           else
             && state.rows == old(state).rows
             && state.applied == old(state).applied && state.escalated == old(state).escalated
    {
      var claim := state.workers[w].phase.claim;
      if GuardMatches(state, state.workers[w].agent, claim) {
        CatchCountsAttempt(history, w, failure, now, cfg);
      }
      Take(CatchFinalize(w, failure, now, cfg));
      if StatusAfterFailure(claim).Pending? {
        return OutRetry;
      }
      if state.workers[w].phase.OwingInCatch? {
        Take(Escalate(w));
      }
      r := OutFailed;
    }

    // One round of the batch loop; None when there was nothing to claim.
    method ProcessNext(w: WorkerId, world: RowWorld, cfg: Config)
      returns (r: Option<Outcome>, ghost claimedAt: seq<Step>, ghost claim: Option<Snapshot>)
      requires Valid() && w in state.workers && state.workers[w].phase.Idle? && world.QuietFor(w)
      modifies this
      ensures Valid() && old(history) <= claimedAt <= history
      ensures w in state.workers && state.workers[w] == old(state).workers[w]
      ensures r.Some? <==> claim.Some?
      ensures claim.Some? ==>
        && claim.value.id in Run(INIT, claimedAt).rows
        && Run(INIT, claimedAt).rows[claim.value.id].status.Processing?
      ensures r == Some(OutMerged) ==> MergedBy(claimedAt, history, claim.value)
    {
      var claimed, losses, seen := ClaimNextPendingQueueItem(w, world.now, cfg, world.tokens, world.whileClaiming);
      claimedAt, claim := history, claimed;
      if claimed.None? {
        return None, claimedAt, claim;
      }
      r := ProcessQueueRow(w, world, cfg);
      if r.None? {
        var caught := CatchFailure(w, world.failure, world.now, cfg);
        r := Some(caught);
      }
    }

    // The batch loop: at most three rows, each counted once; every row counted as merged
    // was moved to merged by this call and, if no stale sweep reopens it, still is merged.
    method ProcessBatch(w: WorkerId, cfg: Config, worlds: nat -> RowWorld)
      returns (processed: nat, merged: nat, retried: nat, failed: nat, ghost mergedIds: seq<QueueId>)
      requires Valid() && w in state.workers && state.workers[w].phase.Idle?
      requires forall n :: worlds(n).QuietFor(w)
      modifies this
      ensures Valid() && old(history) <= history
      ensures w in state.workers && state.workers[w] == old(state).workers[w]
      ensures processed == merged + retried + failed && processed <= MERGE_QUEUE_BATCH_LIMIT
      ensures |mergedIds| == merged && MergedDistinct(history, mergedIds)
    {
      processed, merged, retried, failed := 0, 0, 0, 0;
      mergedIds := [];
      for index := 0 to MERGE_QUEUE_BATCH_LIMIT
        invariant Valid() && old(history) <= history
        invariant w in state.workers && state.workers[w] == old(state).workers[w]
        invariant processed == merged + retried + failed && processed <= index
        invariant |mergedIds| == merged && MergedDistinct(history, mergedIds)
      {
        ghost var before := history;
        var outcome, claimedAt, claim := ProcessNext(w, worlds(index), cfg);
        MergedDistinctStays(before, claimedAt, mergedIds);
        MergedDistinctStays(claimedAt, history, mergedIds);
        if outcome.None? {
          break;
        }
        processed := processed + 1;
        match outcome.value {
          case OutMerged =>
            merged := merged + 1;
            MergedDistinctExtends(claimedAt, history, claim.value, mergedIds);
            mergedIds := mergedIds + [claim.value.id];
          case OutRetry => retried := retried + 1;
          case OutFailed => failed := failed + 1;
        }
      }
    }

    // processMergeQueue: one recovery sweep, then the batch. None stands for the
    // exception of a refused recovery, after which no row is processed and none has changed.
    method ProcessMergeQueue(w: WorkerId, now: Time, cfg: Config, sweepOthers: seq<Step>, worlds: nat -> RowWorld)
      returns (r: Option<Counts>, ghost mergedIds: seq<QueueId>, ghost swept: seq<Step>, ghost before: State)
      requires Valid() && w in state.workers && state.workers[w].phase.Idle? && Quiet(sweepOthers, w)
      requires forall n :: worlds(n).QuietFor(w)
      modifies this
      ensures Valid() && w in state.workers && state.workers[w] == old(state).workers[w]
      ensures swept == old(history) + [SweepSelect(w, now)] + sweepOthers + [SweepUpdate(w, now, cfg)]
      ensures swept <= history
      ensures before == Run(INIT, old(history) + [SweepSelect(w, now)] + sweepOthers)
      ensures r.None? <==> Requeued(before.rows, ExpiredIds(old(state).rows, now), now + ResolveRetryDelayMs(cfg)).None?
      ensures r.None? ==> history == swept && state.rows == before.rows
      ensures r.Some? ==>
        var c := r.value;
        && c.processed == c.merged + c.retried + c.failed && c.processed <= MERGE_QUEUE_BATCH_LIMIT
        && c.recovered == |ExpiredIds(old(state).rows, now)|
        && |mergedIds| == c.merged && MergedDistinct(history, mergedIds)
    {
      mergedIds := [];
      var recovered;
      recovered, before := RecoverExpiredClaims(w, now, cfg, sweepOthers);
      swept := history;
      if recovered.None? {
        return None, mergedIds, swept, before;
      }
      var processed, merged, retried, failed;
      processed, merged, retried, failed, mergedIds := ProcessBatch(w, cfg, worlds);
      r := Some(Counts(recovered.value, processed, merged, retried, failed));
    }
  }
}
