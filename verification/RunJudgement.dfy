// Judging runs: competing judges claim a finished run by setting judgedAt, a retry or
// the backlog recovery clears it again. Rows of several tables, changed one statement
// at a time by any number of judges, workers and the merge queue.
module RunJudgement {
  import opened Options

  type RunId = nat
  type TaskId = nat
  type JudgeId = nat
  type QueueId = nat
  type Time = int

  datatype JudgedRun = JudgedRun(
    task: TaskId, success: bool, judgeable: bool, startedAt: Time, judgedAt: Option<Time>, judgementVersion: nat)

  // awaitingJudge: blocked with the reason awaiting_judge. prNumber: of the latest pr artifact.
  datatype Task = Task(awaitingJudge: bool, updatedAt: Time, retryCount: nat, prNumber: Option<nat>)

  // active: pending or processing.
  datatype MergeRow = MergeRow(task: TaskId, prNumber: nat, active: bool)

  // What happened to the judgement of a run.
  datatype Entry = Won(judge: JudgeId, run: RunId) | Reopened(run: RunId)

  datatype State = State(
    runs: map<RunId, JudgedRun>,
    tasks: map<TaskId, Task>,
    merges: map<QueueId, MergeRow>,
    plans: map<JudgeId, RunId>,
    log: seq<Entry>)

  const INIT := State(map[], map[], map[], map[], [])

  datatype Step =
    | Claim(judge: JudgeId, run: RunId, now: Time)
    | BlockTask(task: TaskId, now: Time, retryCount: nat)
    | Restore(run: RunId)
    | RecoverCheck(judge: JudgeId, task: TaskId, run: RunId)
    | RecoverApply(judge: JudgeId)
    | AddRun(run: RunId, task: TaskId, judgeable: bool, startedAt: Time)
    | EndRun(run: RunId, success: bool)
    | SetTask(task: TaskId, row: Task)
    | SetMerge(id: QueueId, merge: MergeRow)

  // ---- Guards

  predicate Open(s: State, run: RunId) {
    run in s.runs && s.runs[run].success && s.runs[run].judgedAt.None?
  }

  predicate Judged(s: State, run: RunId) {
    run in s.runs && s.runs[run].judgedAt.Some?
  }

  // An active merge row of the task, or of the pull request it last produced.
  predicate Merging(s: State, task: TaskId) {
    exists id :: id in s.merges && s.merges[id].active
      && (s.merges[id].task == task || (task in s.tasks && s.tasks[task].prNumber == Some(s.merges[id].prNumber)))
  }

  predicate Recoverable(s: State, task: TaskId, run: RunId) {
    run in s.runs && s.runs[run].task == task && s.runs[run].success && s.runs[run].judgeable
  }

  // The task has waited for its judge long enough.
  predicate Stuck(s: State, task: TaskId, cutoff: Time) {
    task in s.tasks && s.tasks[task].awaitingJudge && s.tasks[task].updatedAt <= cutoff
  }

  // Nothing of the task is being merged or still to be judged, and the run is its latest
  // that could be judged.
  predicate RecoverEnabled(s: State, task: TaskId, run: RunId) {
    && !Merging(s, task)
    && (forall r :: r in s.runs && s.runs[r].task == task ==> !Open(s, r))
    && Recoverable(s, task, run)
    && forall r :: r in s.runs && Recoverable(s, task, r) ==> s.runs[r].startedAt <= s.runs[run].startedAt
  }

  // update(runs).set({judgedAt: null}).where(id = run)
  function ClearJudged(s: State, run: RunId): State {
    if run !in s.runs then s
    else
      s.(runs := s.runs[run := s.runs[run].(judgedAt := None)],
         log := if s.runs[run].judgedAt.Some? then s.log + [Reopened(run)] else s.log)
  }

  function Next(s: State, step: Step): State {
    match step
    case Claim(judge, run, now) =>
      if !Open(s, run) then s
      else
        var r := s.runs[run];
        s.(runs := s.runs[run := r.(judgedAt := Some(now), judgementVersion := r.judgementVersion + 1)],
           log := s.log + [Won(judge, run)])
    case BlockTask(task, now, retryCount) =>
      if task !in s.tasks then s
      else
        s.(tasks := s.tasks[task := s.tasks[task].(awaitingJudge := true, updatedAt := now, retryCount := retryCount)])
    case Restore(run) => ClearJudged(s, run)
    case RecoverCheck(judge, task, run) =>
      if RecoverEnabled(s, task, run) then s.(plans := s.plans[judge := run])
      else s.(plans := s.plans - {judge})
    case RecoverApply(judge) =>
      if judge !in s.plans then s else ClearJudged(s, s.plans[judge]).(plans := s.plans - {judge})
    case AddRun(run, task, judgeable, startedAt) =>
      if run in s.runs then s
      else s.(runs := s.runs[run := JudgedRun(task, false, judgeable, startedAt, None, 0)])
    case EndRun(run, success) =>
      if run !in s.runs then s else s.(runs := s.runs[run := s.runs[run].(success := success)])
    case SetTask(task, row) => s.(tasks := s.tasks[task := row])
    case SetMerge(id, merge) => s.(merges := s.merges[id := merge])
  }

  function Run(s: State, steps: seq<Step>): State {
    if steps == [] then s else Next(Run(s, steps[..|steps| - 1]), steps[|steps| - 1])
  }

  lemma {:induction false} RunConcat(s: State, a: seq<Step>, b: seq<Step>)
    ensures Run(s, a + b) == Run(Run(s, a), b)
  {
    if b == [] {
      assert a + b == a;
    } else {
      assert (a + b)[..|a + b| - 1] == a + b[..|b| - 1];
      RunConcat(s, a, b[..|b| - 1]);
    }
  }

  // ---- Wins and reopenings alternate

  function Wins(log: seq<Entry>, run: RunId): nat {
    if log == [] then 0
    else Wins(log[..|log| - 1], run) + if log[|log| - 1].Won? && log[|log| - 1].run == run then 1 else 0
  }

  function Reopenings(log: seq<Entry>, run: RunId): nat {
    if log == [] then 0
    else Reopenings(log[..|log| - 1], run) + if log[|log| - 1].Reopened? && log[|log| - 1].run == run then 1 else 0
  }

  // At most one more win than reopenings, at every moment, and never fewer.
  ghost predicate Alternates(log: seq<Entry>) {
    forall run, k :: 0 <= k <= |log| ==>
      Reopenings(log[..k], run) <= Wins(log[..k], run) <= Reopenings(log[..k], run) + 1
  }

  ghost predicate Balanced(s: State) {
    && Alternates(s.log)
    && (forall run :: run in s.runs ==>
          && Wins(s.log, run) == s.runs[run].judgementVersion
          && Wins(s.log, run) == Reopenings(s.log, run) + if s.runs[run].judgedAt.Some? then 1 else 0)
    && (forall run :: run !in s.runs ==> Wins(s.log, run) == Reopenings(s.log, run) == 0)
    && (forall judge :: judge in s.plans ==> s.plans[judge] in s.runs)
  }

  lemma LogStep(log: seq<Entry>, entry: Entry, run: RunId)
    ensures Wins(log + [entry], run) == Wins(log, run) + if entry.Won? && entry.run == run then 1 else 0
    ensures Reopenings(log + [entry], run)
      == Reopenings(log, run) + if entry.Reopened? && entry.run == run then 1 else 0
  {
    assert (log + [entry])[..|log|] == log;
  }

  lemma AlternatesMore(log: seq<Entry>, entry: Entry)
    requires Alternates(log)
    requires Wins(log, entry.run) == Reopenings(log, entry.run) + if entry.Won? then 0 else 1
    ensures Alternates(log + [entry])
  {
    var more := log + [entry];
    forall run, k | 0 <= k <= |more|
      ensures Reopenings(more[..k], run) <= Wins(more[..k], run) <= Reopenings(more[..k], run) + 1
    {
      assert log[..|log|] == log && more[..|more|] == more;
      assert Reopenings(log[..|log|], run) <= Wins(log[..|log|], run) <= Reopenings(log[..|log|], run) + 1;
      if k <= |log| {
        assert more[..k] == log[..k];
      } else {
        LogStep(log, entry, run);
      }
    }
  }

  // One entry more, and the row of its run moved along with it.
  lemma BalancedWithEntry(s: State, t: State, entry: Entry)
    requires Balanced(s) && entry.run in s.runs && t.log == s.log + [entry]
    requires entry.Won? <==> s.runs[entry.run].judgedAt.None?
    requires t.runs.Keys == s.runs.Keys && (forall r :: r in s.runs && r != entry.run ==> t.runs[r] == s.runs[r])
    requires t.runs[entry.run].judgedAt.Some? <==> entry.Won?
    requires t.runs[entry.run].judgementVersion == s.runs[entry.run].judgementVersion + if entry.Won? then 1 else 0
    requires t.plans.Keys <= s.plans.Keys && forall j :: j in t.plans ==> t.plans[j] == s.plans[j]
    ensures Balanced(t)
  {
    AlternatesMore(s.log, entry);
    forall run ensures Wins(t.log, run) == Wins(s.log, run) + (if entry.Won? && entry.run == run then 1 else 0)
      && Reopenings(t.log, run) == Reopenings(s.log, run) + (if entry.Reopened? && entry.run == run then 1 else 0)
    {
      LogStep(s.log, entry, run);
    }
  }

  // No entry, and no judgement touched.
  lemma BalancedWithoutEntry(s: State, t: State)
    requires Balanced(s) && t.log == s.log && s.runs.Keys <= t.runs.Keys
    requires forall r :: r in s.runs ==>
      && (t.runs[r].judgedAt.Some? <==> s.runs[r].judgedAt.Some?)
      && t.runs[r].judgementVersion == s.runs[r].judgementVersion
    requires forall r :: r in t.runs && r !in s.runs ==> t.runs[r].judgedAt.None? && t.runs[r].judgementVersion == 0
    requires forall j :: j in t.plans ==> t.plans[j] in t.runs
    ensures Balanced(t)
  {
  }

  lemma ClearKeepsBalanced(s: State, run: RunId, plans: map<JudgeId, RunId>)
    requires Balanced(s) && plans.Keys <= s.plans.Keys && forall j :: j in plans ==> plans[j] == s.plans[j]
    ensures Balanced(ClearJudged(s, run).(plans := plans))
  {
    var t := ClearJudged(s, run).(plans := plans);
    if run in s.runs && s.runs[run].judgedAt.Some? {
      BalancedWithEntry(s, t, Reopened(run));
    } else {
      BalancedWithoutEntry(s, t);
    }
  }

  lemma ClaimKeepsBalanced(s: State, judge: JudgeId, run: RunId, now: Time)
    requires Balanced(s)
    ensures Balanced(Next(s, Claim(judge, run, now)))
  {
    if Open(s, run) {
      BalancedWithEntry(s, Next(s, Claim(judge, run, now)), Won(judge, run));
    }
  }

  lemma RunStepKeepsBalanced(s: State, step: Step)
    requires Balanced(s) && (step.AddRun? || step.EndRun?)
    ensures Balanced(Next(s, step))
  {
    BalancedWithoutEntry(s, Next(s, step));
  }

  lemma OtherStepKeepsBalanced(s: State, step: Step)
    requires Balanced(s) && (step.BlockTask? || step.SetTask? || step.SetMerge? || step.RecoverCheck?)
    ensures Balanced(Next(s, step))
  {
    BalancedWithoutEntry(s, Next(s, step));
  }

  lemma StepKeepsBalanced(s: State, step: Step)
    requires Balanced(s)
    ensures Balanced(Next(s, step))
  {
    match step
    case Claim(judge, run, now) => ClaimKeepsBalanced(s, judge, run, now);
    case Restore(run) => ClearKeepsBalanced(s, run, s.plans);
    case RecoverApply(judge) =>
      if judge in s.plans { ClearKeepsBalanced(s, s.plans[judge], s.plans - {judge}); }
    case AddRun(_, _, _, _) => RunStepKeepsBalanced(s, step);
    case EndRun(_, _) => RunStepKeepsBalanced(s, step);
    case _ => OtherStepKeepsBalanced(s, step);
  }

  // In every interleaving: a run's judgementVersion is the number of judges that won it,
  // and every win but a last one has been followed by one reopening.
  lemma {:induction false} BalancedInEveryRun(steps: seq<Step>)
    ensures Balanced(Run(INIT, steps))
  {
    if steps != [] {
      BalancedInEveryRun(steps[..|steps| - 1]);
      StepKeepsBalanced(Run(INIT, steps[..|steps| - 1]), steps[|steps| - 1]);
    }
  }

  lemma {:induction false} CountsGrow(log: seq<Entry>, k: nat, run: RunId)
    requires k <= |log|
    ensures Wins(log[..k], run) <= Wins(log, run) && Reopenings(log[..k], run) <= Reopenings(log, run)
    ensures Reopenings(log[..k], run) < Reopenings(log, run) ==> exists m :: k <= m < |log| && log[m] == Reopened(run)
  {
    if k == |log| {
      assert log[..k] == log;
    } else {
      var init := log[..|log| - 1];
      assert init[..k] == log[..k];
      CountsGrow(init, k, run);
      if log[|log| - 1] != Reopened(run) && Reopenings(log[..k], run) < Reopenings(log, run) {
        var m :| k <= m < |init| && init[m] == Reopened(run);
        assert log[m] == Reopened(run);
      }
    }
  }

  lemma WinsNeedReopening(log: seq<Entry>, i: nat, k: nat, run: RunId)
    requires Alternates(log) && i < k < |log|
    requires log[i].Won? && log[k].Won? && log[i].run == log[k].run == run
    ensures Reopenings(log[..i + 1], run) < Reopenings(log[..k], run)
  {
    assert log[..i + 1] == log[..i] + [log[i]] && log[..k + 1] == log[..k] + [log[k]];
    LogStep(log[..i], log[i], run);
    LogStep(log[..k], log[k], run);
    assert Reopenings(log[..i], run) <= Wins(log[..i], run);
    assert Wins(log[..k + 1], run) <= Reopenings(log[..k + 1], run) + 1;
    assert log[..k][..i + 1] == log[..i + 1];
    CountsGrow(log[..k], i + 1, run);
  }

  // Two wins of the same run have a reopening between them.
  lemma WinsAreSeparated(steps: seq<Step>, i: nat, k: nat, run: RunId)
    requires var log := Run(INIT, steps).log;
      i < k < |log| && log[i].Won? && log[k].Won? && log[i].run == log[k].run == run
    ensures exists m :: i < m < k && Run(INIT, steps).log[m] == Reopened(run)
  {
    var log := Run(INIT, steps).log;
    BalancedInEveryRun(steps);
    WinsNeedReopening(log, i, k, run);
    assert log[..k][..i + 1] == log[..i + 1];
    CountsGrow(log[..k], i + 1, run);
    var m :| i + 1 <= m < k && log[..k][m] == Reopened(run);
    assert log[m] == Reopened(run);
  }

  lemma LogGrowsInStep(s: State, step: Step)
    ensures s.log <= Next(s, step).log && s.runs.Keys <= Next(s, step).runs.Keys
  {
  }

  lemma {:induction false} LogGrows(s: State, steps: seq<Step>)
    ensures s.log <= Run(s, steps).log && s.runs.Keys <= Run(s, steps).runs.Keys
  {
    if steps != [] {
      LogGrows(s, steps[..|steps| - 1]);
      LogGrowsInStep(Run(s, steps[..|steps| - 1]), steps[|steps| - 1]);
    }
  }

  lemma CountsInRun(s: State, steps: seq<Step>, run: RunId)
    ensures Wins(s.log, run) <= Wins(Run(s, steps).log, run)
    ensures Reopenings(s.log, run) <= Reopenings(Run(s, steps).log, run)
  {
    LogGrows(s, steps);
    var log := Run(s, steps).log;
    assert log[..|s.log|] == s.log;
    CountsGrow(log, |s.log|, run);
  }

  // A claim of a finished run leaves it judged: by this judge, or by one that came first.
  lemma ClaimLeavesJudged(s: State, steps: seq<Step>, i: nat, run: RunId)
    requires i < |steps| && steps[i].Claim? && steps[i].run == run
    requires run in Run(s, steps[..i]).runs && Run(s, steps[..i]).runs[run].success
    ensures Judged(Run(s, steps[..i + 1]), run)
  {
    assert steps[..i + 1][..i] == steps[..i];
    assert Run(s, steps[..i + 1]) == Next(Run(s, steps[..i]), steps[i]);
  }

  lemma ReachedIsBalanced(before: seq<Step>, steps: seq<Step>)
    ensures Balanced(Run(Run(INIT, before), steps))
  {
    RunConcat(INIT, before, steps);
    BalancedInEveryRun(before + steps);
  }

  lemma CountsBetween(s: State, steps: seq<Step>, k: nat, run: RunId)
    requires k <= |steps|
    ensures var (a, b, c) := (s.log, Run(s, steps[..k]).log, Run(s, steps).log);
      && Wins(a, run) <= Wins(b, run) <= Wins(c, run)
      && Reopenings(a, run) <= Reopenings(b, run) <= Reopenings(c, run)
  {
    CountsInRun(s, steps[..k], run);
    RunConcat(s, steps[..k], steps[k..]);
    assert steps[..k] + steps[k..] == steps;
    CountsInRun(Run(s, steps[..k]), steps[k..], run);
  }

  // Of any number of judges claiming an open run, while nobody reopens it, exactly one wins.
  lemma OneWinnerPerOpening(before: seq<Step>, steps: seq<Step>, i: nat, run: RunId)
    requires var s := Run(INIT, before);
      && Open(s, run) && i < |steps| && steps[i].Claim? && steps[i].run == run
      && run in Run(s, steps[..i]).runs && Run(s, steps[..i]).runs[run].success
      && Reopenings(Run(s, steps).log, run) == Reopenings(s.log, run)
    ensures Wins(Run(Run(INIT, before), steps).log, run) == Wins(Run(INIT, before).log, run) + 1
  {
    var s := Run(INIT, before);
    BalancedInEveryRun(before);
    ReachedIsBalanced(before, steps);
    ReachedIsBalanced(before, steps[..i + 1]);
    ClaimLeavesJudged(s, steps, i, run);
    CountsBetween(s, steps, i + 1, run);
    LogGrows(s, steps);
  }

  // ---- Recovery and the merge queue

  // Check and update with nothing in between: the run becomes the one open run of its
  // task, no other run changes, and nothing of the task is being merged.
  lemma AtomicRecoveryOpensOneRun(s: State, judge: JudgeId, task: TaskId, run: RunId)
    requires RecoverEnabled(s, task, run)
    ensures var t := Run(s, [RecoverCheck(judge, task, run), RecoverApply(judge)]);
      && Open(t, run) && !Merging(t, task) && t.log == s.log + [Reopened(run)]
      && (forall r :: r in s.runs && r != run ==> r in t.runs && t.runs[r] == s.runs[r])
      && (forall r :: Open(t, r) && t.runs[r].task == task ==> r == run)
  {
    var check, apply := RecoverCheck(judge, task, run), RecoverApply(judge);
    assert [check, apply][..1] == [check] && [check][..0] == [];
    var u := Next(s, check);
    assert Run(s, []) == s && Run(s, [check]) == u;
    assert Run(s, [check, apply]) == Next(u, apply);
    assert run in s.runs && s.runs[run].task == task;
    assert !Open(s, run);
  }

  // Every update of the recovery comes right after the checks that led to it.
  ghost predicate AtomicRecoveries(steps: seq<Step>) {
    forall i :: 0 <= i < |steps| && steps[i].RecoverApply? ==>
      i > 0 && steps[i - 1].RecoverCheck? && steps[i - 1].judge == steps[i].judge
  }

  // The update of a recovery for a run that is judged and whose task is being merged by then.
  predicate LateRecovery(s: State, step: Step) {
    && step.RecoverApply? && step.judge in s.plans
    && Judged(s, s.plans[step.judge]) && Merging(s, s.runs[s.plans[step.judge]].task)
  }

  // The step takes the judgement from a run whose task is being merged.
  predicate ReopensDuringMerge(s: State, step: Step, run: RunId) {
    Judged(s, run) && Merging(s, s.runs[run].task) && !Judged(Next(s, step), run)
  }

  // Which run a step reopens: exactly the one a restore or a late recovery names.
  lemma ReopensDuringMergeIff(s: State, step: Step, run: RunId)
    ensures ReopensDuringMerge(s, step, run) <==>
      && Judged(s, run) && Merging(s, s.runs[run].task)
      && (step == Restore(run) || (LateRecovery(s, step) && s.plans[step.judge] == run))
  {
  }

  // An update of the recovery reopens a run that is being merged if and only if it is late.
  lemma RecoveryReopensDuringMergeIff(s: State, judge: JudgeId)
    ensures (exists run :: ReopensDuringMerge(s, RecoverApply(judge), run)) <==> LateRecovery(s, RecoverApply(judge))
  {
    if LateRecovery(s, RecoverApply(judge)) {
      ReopensDuringMergeIff(s, RecoverApply(judge), s.plans[judge]);
    } else {
      forall run ensures !ReopensDuringMerge(s, RecoverApply(judge), run) {
        ReopensDuringMergeIff(s, RecoverApply(judge), run);
      }
    }
  }

  // A run that loses its judgement in this step while its task is being merged loses it to a restore.
  ghost predicate RestoreIfDuringMerge(s: State, step: Step) {
    forall run :: ReopensDuringMerge(s, step, run) ==> step == Restore(run)
  }

  lemma RestoreIfDuringMergeIff(s: State, step: Step)
    ensures RestoreIfDuringMerge(s, step) <==> !LateRecovery(s, step)
  {
    if step.RecoverApply? {
      RecoveryReopensDuringMergeIff(s, step.judge);
    } else {
      forall run | ReopensDuringMerge(s, step, run) ensures step == Restore(run) {
        ReopensDuringMergeIff(s, step, run);
      }
    }
  }

  ghost predicate NoLateRecovery(steps: seq<Step>) {
    forall i :: 0 <= i < |steps| ==> !LateRecovery(Run(INIT, steps[..i]), steps[i])
  }

  // Over runs of any length: while something of a task is being merged only an explicit
  // restore reopens a run of it, if and only if no recovery is late.
  lemma OnlyRestoresReopenDuringMergeIff(steps: seq<Step>)
    ensures NoLateRecovery(steps) <==>
      forall i :: 0 <= i < |steps| ==> RestoreIfDuringMerge(Run(INIT, steps[..i]), steps[i])
  {
    forall i | 0 <= i < |steps|
      ensures RestoreIfDuringMerge(Run(INIT, steps[..i]), steps[i]) <==> !LateRecovery(Run(INIT, steps[..i]), steps[i])
    {
      RestoreIfDuringMergeIff(Run(INIT, steps[..i]), steps[i]);
    }
  }

  lemma CheckedIsNotLate(checked: State, check: Step, apply: Step)
    requires check.RecoverCheck? && apply.RecoverApply? && check.judge == apply.judge
    ensures !LateRecovery(Next(checked, check), apply)
  {
    var s := Next(checked, check);
    assert Merging(s, check.task) <==> Merging(checked, check.task);
    if apply.judge in s.plans {
      assert s.plans[apply.judge] == check.run && s.runs[check.run].task == check.task;
    }
  }

  // Checks and update with nothing in between are never late.
  lemma AtomicRecoveriesAreNotLate(steps: seq<Step>)
    requires AtomicRecoveries(steps)
    ensures NoLateRecovery(steps)
  {
    forall i | 0 <= i < |steps| ensures !LateRecovery(Run(INIT, steps[..i]), steps[i]) {
      if steps[i].RecoverApply? {
        assert steps[..i][..i - 1] == steps[..i - 1];
        CheckedIsNotLate(Run(INIT, steps[..i - 1]), steps[i - 1], steps[i]);
      }
    }
  }

  // With the checks and the update apart it is not so: the run is enqueued for merging
  // after the checks, and reopened all the same.
  const JUDGED := [
    AddRun(0, 0, true, 0), EndRun(0, true), Claim(1, 0, 1), SetTask(0, Task(true, 1, 0, Some(7)))]
  const JUDGED_STATE := State(
    map[0 := JudgedRun(0, true, true, 0, Some(1), 1)], map[0 := Task(true, 1, 0, Some(7))], map[], map[], [Won(1, 0)])

  lemma JudgedIsReached()
    ensures Run(INIT, JUDGED) == JUDGED_STATE
  {
    var s0 := INIT;
    var s1 := Next(s0, JUDGED[0]);
    var s2 := Next(s1, JUDGED[1]);
    var s3 := Next(s2, JUDGED[2]);
    assert JUDGED[..3][..2] == JUDGED[..2] && JUDGED[..2][..1] == JUDGED[..1] && JUDGED[..1][..0] == [];
    assert Run(s0, JUDGED[..1]) == s1;
    assert Run(s0, JUDGED[..2]) == s2;
    assert Run(s0, JUDGED[..3]) == s3;
    assert s3.runs == map[0 := JudgedRun(0, true, true, 0, Some(1), 1)];
  }

  lemma JudgedIsRecoverable()
    ensures RecoverEnabled(JUDGED_STATE, 0, 0)
  {
  }

  lemma LateRecoveryReopensDuringMerge()
    ensures var s := Run(INIT, JUDGED + [RecoverCheck(2, 0, 0), SetMerge(0, MergeRow(0, 7, true))]);
      && LateRecovery(s, RecoverApply(2)) && ReopensDuringMerge(s, RecoverApply(2), 0)
      && Open(Next(s, RecoverApply(2)), 0)
  {
    var check, merge := RecoverCheck(2, 0, 0), SetMerge(0, MergeRow(0, 7, true));
    JudgedIsReached();
    JudgedIsRecoverable();
    RunConcat(INIT, JUDGED, [check, merge]);
    var s := JUDGED_STATE;
    assert Run(s, []) == s && [check, merge][..1] == [check] && [check][..0] == [];
    var u := Next(s, check);
    assert Run(s, [check]) == u;
    var v := Next(u, merge);
    assert Run(s, [check, merge]) == v;
    assert v.merges[0].active && v.merges[0].task == 0;
  }
}
