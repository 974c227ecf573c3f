// The judge's code around judgements: claiming a run, scheduling a retry, recovering
// tasks that wait for a judge. Between statements others take arbitrary steps.
module JudgementRetry {
  import opened Options
  import opened RunJudgement

  const DEFAULT_COOLDOWN_MS := 120000

  // The configured cooldown, when it is a positive number.
  function CooldownMs(configured: Option<int>): (ms: int)
    ensures ms > 0
  {
    if configured.Some? && configured.value > 0 then configured.value else DEFAULT_COOLDOWN_MS
  }

  // Steps of the backlog recovery of one judge.
  predicate RecoversFor(step: Step, judge: JudgeId) {
    (step.RecoverCheck? || step.RecoverApply?) && step.judge == judge
  }

  predicate Foreign(steps: seq<Step>, judge: JudgeId) {
    forall i :: 0 <= i < |steps| ==> !RecoversFor(steps[i], judge)
  }

  function Applies(steps: seq<Step>, judge: JudgeId): nat {
    if steps == [] then 0
    else Applies(steps[..|steps| - 1], judge) + if steps[|steps| - 1] == RecoverApply(judge) then 1 else 0
  }

  lemma {:induction false} AppliesConcat(a: seq<Step>, b: seq<Step>, judge: JudgeId)
    ensures Applies(a + b, judge) == Applies(a, judge) + Applies(b, judge)
  {
    if b == [] {
      assert a + b == a;
    } else {
      assert (a + b)[..|a + b| - 1] == a + b[..|b| - 1];
      AppliesConcat(a, b[..|b| - 1], judge);
    }
  }

  lemma {:induction false} ForeignAppliesNothing(steps: seq<Step>, judge: JudgeId)
    requires Foreign(steps, judge)
    ensures Applies(steps, judge) == 0
  {
    if steps != [] {
      ForeignAppliesNothing(steps[..|steps| - 1], judge);
    }
  }

  class JudgementTables {
    var state: State
    ghost var history: seq<Step>

    ghost predicate Valid()
      reads this
    {
      state == Run(INIT, history)
    }

    constructor ()
      ensures Valid() && history == []
    {
      state := INIT;
      history := [];
    }

    // One statement of some process.
    method Take(step: Step)
      requires Valid()
      modifies this
      ensures Valid() && history == old(history) + [step] && state == Next(old(state), step)
    {
      state := Next(state, step);
      history := history + [step];
      assert history[..|history| - 1] == old(history);
    }

    method Others(steps: seq<Step>)
      requires Valid()
      modifies this
      ensures Valid() && history == old(history) + steps && state == Run(old(state), steps)
    {
      RunConcat(INIT, history, steps);
      for i := 0 to |steps|
        invariant history == old(history) && state == Run(old(state), steps[..i])
      {
        assert steps[..i + 1][..i] == steps[..i];
        state := Next(state, steps[i]);
      }
      assert steps[..|steps|] == steps;
      history := history + steps;
    }

    // The guarded update; its row count is the answer.
    method ClaimRunForJudgement(judge: JudgeId, run: RunId, now: Time) returns (won: bool)
      requires Valid()
      modifies this
      ensures Valid() && history == old(history) + [Claim(judge, run, now)]
      ensures won <==> Open(old(state), run)
      ensures won <==> state.log == old(state).log + [Won(judge, run)]
      ensures !won ==> state == old(state)
      ensures won ==>
        && Judged(state, run)
        && state.runs[run].judgementVersion == old(state).runs[run].judgementVersion + 1
    {
      won := run in state.runs && state.runs[run].success && state.runs[run].judgedAt.None?;
      Take(Claim(judge, run, now));
    }

    // The retry count is read, others go on, and the count read plus one is written; the
    // run may be given back to the judges.
    method ScheduleTaskForJudgeRetry(task: TaskId, run: RunId, now: Time, restoreRunImmediately: bool,
                                     afterRead: seq<Step>, afterBlock: seq<Step>)
      requires Valid()
      modifies this
      ensures Valid()
      ensures history == old(history) + afterRead
        + [BlockTask(task, now, (if task in old(state).tasks then old(state).tasks[task].retryCount else 0) + 1)]
        + afterBlock + (if restoreRunImmediately then [Restore(run)] else [])
      ensures restoreRunImmediately && run in state.runs ==> state.runs[run].judgedAt.None?
    {
      var retryCount := if task in state.tasks then state.tasks[task].retryCount else 0;
      Others(afterRead);
      Take(BlockTask(task, now, retryCount + 1));
      Others(afterBlock);
      if restoreRunImmediately {
        Take(Restore(run));
      }
    }

    // The latest run of the task that could be judged.
    method LatestRecoverable(task: TaskId) returns (latest: Option<RunId>)
      ensures latest.None? ==> forall r :: r in state.runs ==> !Recoverable(state, task, r)
      ensures latest.Some? ==>
        && Recoverable(state, task, latest.value)
        && forall r :: r in state.runs && Recoverable(state, task, r) ==>
             state.runs[r].startedAt <= state.runs[latest.value].startedAt
    {
      latest := None;
      var left := state.runs.Keys;
      while left != {}
        invariant left <= state.runs.Keys
        invariant latest.None? ==> forall r :: r in state.runs && r !in left ==> !Recoverable(state, task, r)
        invariant latest.Some? ==> Recoverable(state, task, latest.value)
        invariant latest.Some? ==> forall r :: r in state.runs && r !in left && Recoverable(state, task, r) ==>
          state.runs[r].startedAt <= state.runs[latest.value].startedAt
        decreases |left|
      {
        var r :| r in left;
        left := left - {r};
        if Recoverable(state, task, r)
          && (latest.None? || state.runs[latest.value].startedAt <= state.runs[r].startedAt)
        {
          latest := Some(r);
        }
      }
    }

    // One stuck task: the checks, what others do meanwhile, and the update.
    method RecoverTask(judge: JudgeId, task: TaskId, meanwhile: seq<Step>)
      returns (recovered: bool, ghost taken: seq<Step>)
      requires Valid() && Foreign(meanwhile, judge)
      modifies this
      ensures Valid()
      ensures recovered <==> exists run :: RecoverEnabled(old(state), task, run)
      ensures history == old(history) + taken
      ensures if recovered then IsRecovery(taken, old(state), judge, task, meanwhile) else taken == []
    {
      var latest := LatestRecoverable(task);
      if latest.None? || !RecoverEnabled(state, task, latest.value) {
        return false, [];
      }
      Take(RecoverCheck(judge, task, latest.value));
      Others(meanwhile);
      Take(RecoverApply(judge));
      return true, [RecoverCheck(judge, task, latest.value)] + meanwhile + [RecoverApply(judge)];
    }

    // The tasks that are stuck when the sweep starts, in the order they are read.
    method SelectStuck(cutoff: Time) returns (stuck: seq<TaskId>)
      ensures forall task :: task in stuck <==> Stuck(state, task, cutoff)
      ensures forall i, j :: 0 <= i < j < |stuck| ==> stuck[i] != stuck[j]
    {
      stuck := [];
      var left := state.tasks.Keys;
      while left != {}
        invariant left <= state.tasks.Keys && forall task :: task in stuck ==> task !in left
        invariant forall task :: task in stuck <==> task !in left && Stuck(state, task, cutoff)
        invariant forall i, j :: 0 <= i < j < |stuck| ==> stuck[i] != stuck[j]
        decreases |left|
      {
        var task :| task in left;
        left := left - {task};
        if Stuck(state, task, cutoff) {
          stuck := stuck + [task];
        }
      }
    }

    // One stuck task of a sweep, after what others do before its turn.
    method SweepTask(judge: JudgeId, task: TaskId, before: seq<Step>, meanwhile: seq<Step>)
      returns (recovered: bool, ghost taken: seq<Step>)
      requires Valid() && Foreign(before, judge) && Foreign(meanwhile, judge)
      modifies this
      ensures Valid() && history == old(history) + taken
      ensures Applies(taken, judge) == if recovered then 1 else 0
      ensures meanwhile == [] ==> CheckedFirst(taken, judge)
    {
      Others(before);
      ForeignAppliesNothing(before, judge);
      ghost var checked := state;
      ghost var own: seq<Step>;
      recovered, own := RecoverTask(judge, task, meanwhile);
      AppliesConcat(before, own, judge);
      if recovered {
        OneRecovery(own, checked, judge, task, meanwhile);
      }
      if meanwhile == [] {
        CheckedFirstConcat(before, own, judge);
      }
      taken := before + own;
    }

    // before(i): what others do before the i-th stuck task; meanwhile(i): between its
    // checks and its update. The answer counts the updates made; without a stuck task
    // there is none, and with nothing done meanwhile each comes right after its checks.
    method RecoverAwaitingJudgeBacklog(judge: JudgeId, now: Time, cooldown: Option<int>,
                                       before: nat -> seq<Step>, meanwhile: nat -> seq<Step>)
      returns (recovered: nat, ghost added: seq<Step>)
      requires Valid() && (forall i :: Foreign(before(i), judge)) && (forall i :: Foreign(meanwhile(i), judge))
      modifies this
      ensures Valid() && history == old(history) + added
      ensures recovered == Applies(added, judge)
      ensures NoneStuck(old(state), now - CooldownMs(cooldown)) ==> added == []
      ensures NothingMeanwhile(meanwhile) ==> CheckedFirst(added, judge)
    {
      var stuck := SelectStuck(now - CooldownMs(cooldown));
      assert stuck != [] ==> stuck[0] in stuck;
      recovered := 0;
      added := [];
      for i := 0 to |stuck|
        invariant Valid() && history == old(history) + added
        invariant recovered == Applies(added, judge)
        invariant i == 0 ==> added == []
        invariant NothingMeanwhile(meanwhile) ==> CheckedFirst(added, judge)
      {
        var one, taken := SweepTask(judge, stuck[i], before(i), meanwhile(i));
        AppliesConcat(added, taken, judge);
        if NothingMeanwhile(meanwhile) {
          assert meanwhile(i) == [];
          CheckedFirstConcat(added, taken, judge);
        }
        added := added + taken;
        if one {
          recovered := recovered + 1;
        }
      }
    }
  }

  ghost predicate NoneStuck(s: State, cutoff: Time) {
    forall task :: !Stuck(s, task, cutoff)
  }

  ghost predicate NothingMeanwhile(meanwhile: nat -> seq<Step>) {
    forall i :: meanwhile(i) == []
  }

  // The checks that allow it, what others do meanwhile, and the update.
  ghost predicate IsRecovery(taken: seq<Step>, s: State, judge: JudgeId, task: TaskId, meanwhile: seq<Step>) {
    exists run ::
      && RecoverEnabled(s, task, run)
      && taken == [RecoverCheck(judge, task, run)] + meanwhile + [RecoverApply(judge)]
  }

  lemma OneRecovery(taken: seq<Step>, s: State, judge: JudgeId, task: TaskId, meanwhile: seq<Step>)
    requires IsRecovery(taken, s, judge, task, meanwhile) && Foreign(meanwhile, judge)
    ensures Applies(taken, judge) == 1
    ensures meanwhile == [] ==> CheckedFirst(taken, judge)
  {
    var run :| RecoverEnabled(s, task, run)
      && taken == [RecoverCheck(judge, task, run)] + meanwhile + [RecoverApply(judge)];
    var check, apply := [RecoverCheck(judge, task, run)], [RecoverApply(judge)];
    AppliesConcat(check + meanwhile, apply, judge);
    AppliesConcat(check, meanwhile, judge);
    ForeignAppliesNothing(meanwhile, judge);
    assert check[..0] == [] && apply[..0] == [];
    assert Applies(check, judge) == 0 && Applies(apply, judge) == 1;
  }

  // Every update of this judge comes right after its checks.
  ghost predicate CheckedFirst(steps: seq<Step>, judge: JudgeId) {
    forall i :: 0 <= i < |steps| && steps[i] == RecoverApply(judge) ==>
      i > 0 && steps[i - 1].RecoverCheck? && steps[i - 1].judge == judge
  }

  lemma CheckedFirstConcat(a: seq<Step>, b: seq<Step>, judge: JudgeId)
    requires (Foreign(a, judge) || CheckedFirst(a, judge)) && CheckedFirst(b, judge)
    ensures CheckedFirst(a + b, judge)
  {
    var c := a + b;
    forall i | 0 <= i < |c| && c[i] == RecoverApply(judge)
      ensures i > 0 && c[i - 1].RecoverCheck? && c[i - 1].judge == judge
    {
      if i >= |a| {
        assert c[i] == b[i - |a|];
      } else {
        assert c[i] == a[i];
      }
    }
  }
}
