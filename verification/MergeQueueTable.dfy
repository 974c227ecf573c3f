// The merge-queue table and the SQL statements the judges run against it.
// Every statement is one function from table to table: it stands for a single
// guarded UPDATE or INSERT, which the database executes atomically.
module MergeQueueTable {
  import opened Options

  type QueueId = nat
  type Token = nat
  type AgentId = string
  type Time = int

  datatype Status = Pending | Processing | Merged | Failed | Cancelled

  datatype Row = Row(
    prNumber: int,
    taskId: nat,
    runId: nat,
    status: Status,
    priority: int,
    attemptCount: nat,
    maxAttempts: nat,
    nextAttemptAt: Time,
    lastError: Option<string>,
    claimOwner: Option<AgentId>,
    claimToken: Option<Token>,
    claimExpiresAt: Option<Time>,
    claimedAt: Option<Time>,
    createdAt: Time)

  type Table = map<QueueId, Row>

  // A setting read with Number.parseInt: None stands for NaN.
  datatype Config = Config(maxAttempts: Option<int>, retryDelayMs: Option<int>, claimTtlMs: Option<int>)

  function ResolveRetryDelayMs(cfg: Config): int {
    if cfg.retryDelayMs.None? || cfg.retryDelayMs.value < 0 then 30_000 else cfg.retryDelayMs.value
  }

  function ResolveClaimTtlMs(cfg: Config): int {
    if cfg.claimTtlMs.None? || cfg.claimTtlMs.value <= 0 then 120_000 else cfg.claimTtlMs.value
  }

  function ResolveMaxAttempts(cfg: Config): nat {
    if cfg.maxAttempts.None? || cfg.maxAttempts.value <= 0 then 3 else cfg.maxAttempts.value
  }

  predicate Active(row: Row) {
    row.status.Pending? || row.status.Processing?
  }

  // Unique index on pr_number over the active rows.
  predicate PrIndexHolds(t: Table) {
    forall a, b :: a in t && b in t && a != b && Active(t[a]) && Active(t[b]) ==> t[a].prNumber != t[b].prNumber
  }

  // Unique index on (task_id, run_id) over all rows.
  predicate SourceIndexHolds(t: Table) {
    forall a, b :: a in t && b in t && a != b ==> t[a].taskId != t[b].taskId || t[a].runId != t[b].runId
  }

  // INSERT: refused on a primary-key or unique-index conflict.
  predicate InsertAllowed(t: Table, id: QueueId, row: Row) {
    && id !in t
    && (Active(row) ==> forall a :: a in t && Active(t[a]) ==> t[a].prNumber != row.prNumber)
    && (forall a :: a in t ==> t[a].taskId != row.taskId || t[a].runId != row.runId)
  }

  function NewRow(prNumber: int, taskId: nat, runId: nat, priority: int, reason: Option<string>, now: Time,
                  cfg: Config): Row {
    Row(prNumber, taskId, runId, Pending, priority, 0, ResolveMaxAttempts(cfg), now, reason,
        None, None, None, None, now)
  }

  // The WHERE clause of the claim: pending and due.
  predicate Claimable(row: Row, now: Time) {
    row.status.Pending? && row.nextAttemptAt <= now
  }

  function ClaimedRow(row: Row, agent: AgentId, token: Token, now: Time, cfg: Config): Row {
    row.(status := Processing, claimOwner := Some(agent), claimToken := Some(token),
         claimedAt := Some(now), claimExpiresAt := Some(now + ResolveClaimTtlMs(cfg)))
  }

  // The WHERE clause of renew and finalize: processing, with this owner and this token.
  predicate HeldBy(row: Row, agent: AgentId, token: Token) {
    row.status.Processing? && row.claimOwner == Some(agent) && row.claimToken == Some(token)
  }

  function FinalizedRow(row: Row, status: Status, attemptCount: nat, nextAttemptAt: Time,
                        lastError: Option<string>): Row {
    row.(status := status, attemptCount := attemptCount, nextAttemptAt := nextAttemptAt, lastError := lastError,
         claimOwner := None, claimToken := None, claimExpiresAt := None, claimedAt := None)
  }

  // The WHERE clause of the expiry select. A NULL expiry never compares as true.
  predicate Expired(row: Row, now: Time) {
    row.status.Processing? && row.claimExpiresAt.Some? && row.claimExpiresAt.value <= now
  }

  function RequeuedRow(row: Row, nextAttemptAt: Time): Row {
    row.(status := Pending, nextAttemptAt := nextAttemptAt,
         claimOwner := None, claimToken := None, claimExpiresAt := None, claimedAt := None)
  }

  // UPDATE ... WHERE id IN ids: no guard on the status.
  function RequeueIds(t: Table, ids: set<QueueId>, nextAttemptAt: Time): Table {
    map id | id in t :: if id in ids then RequeuedRow(t[id], nextAttemptAt) else t[id]
  }

  function ExpiredIds(t: Table, now: Time): set<QueueId> {
    set id | id in t && Expired(t[id], now)
  }

  function OwnedIds(t: Table, agent: AgentId): set<QueueId> {
    set id | id in t && t[id].status.Processing? && t[id].claimOwner == Some(agent)
  }
}
