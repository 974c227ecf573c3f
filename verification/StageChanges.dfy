// Staging paths with `git add`: what git refuses is shed or retried, in a bounded loop.
module StageChanges {
  import opened Sequences
  import Text

  type Path = string

  // What git says to one add: the exit status, and the paths its messages call ignored
  // by a .gitignore file and without a matching file.
  datatype Report = Report(success: bool, ignored: seq<Path>, missing: seq<Path>)

  // The repository: what the n-th add reports, and whether a path is tracked then.
  datatype Git = Git(add: (nat, bool, seq<Path>) -> Report, tracked: (nat, Path) -> bool)

  datatype Call = Call(addAll: bool, paths: seq<Path>, success: bool)

  datatype Failure = GitFailed | EverythingIgnored | NoProgress | RetryLimitExceeded

  datatype Outcome =
    | Staged(skippedIgnored: set<Path>, skippedMissing: set<Path>)
    | Failed(why: Failure)

  // ---- What is asked for, and what is tried next

  function Trimmed(paths: seq<Path>): seq<Path> {
    if paths == [] then []
    else
      var path := Text.Trim(paths[|paths| - 1]);
      Trimmed(paths[..|paths| - 1]) + if path == "" then [] else [path]
  }

  function StagePaths(paths: seq<Path>): (r: seq<Path>)
    ensures r != [] && NoDuplicates(r)
  {
    if Dedup(Trimmed(paths)) != [] then Dedup(Trimmed(paths)) else ["."]
  }

  function Without(paths: seq<Path>, drop: seq<Path>): (r: seq<Path>)
    ensures forall p :: p in r <==> p in paths && p !in drop
  {
    if paths == [] then []
    else
      var last := paths[|paths| - 1];
      assert paths == paths[..|paths| - 1] + [last];
      Without(paths[..|paths| - 1], drop) + if last in drop then [] else [last]
  }

  function Tracked(git: Git, attempt: nat, paths: seq<Path>): (r: seq<Path>)
    ensures forall p :: p in r <==> p in paths && git.tracked(attempt, p)
  {
    if paths == [] then []
    else
      var last := paths[|paths| - 1];
      assert paths == paths[..|paths| - 1] + [last];
      Tracked(git, attempt, paths[..|paths| - 1]) + if git.tracked(attempt, last) then [last] else []
  }

  function RetryPaths(git: Git, attempt: nat, pending: seq<Path>, report: Report): (r: seq<Path>)
    ensures NoDuplicates(r)
    ensures forall p :: p in r <==>
      || (p in pending && p !in report.ignored && p !in report.missing)
      || (p in report.missing && git.tracked(attempt, p))
  {
    Dedup(Without(pending, report.ignored + report.missing) + Tracked(git, attempt, report.missing))
  }

  // The state of the loop.
  datatype Staging = Staging(
    attempt: nat, pending: seq<Path>, useAddAll: bool, skippedIgnored: set<Path>, skippedMissing: set<Path>)

  function Elements(s: seq<Path>): set<Path> {
    set p | p in s
  }

  function Untracked(git: Git, attempt: nat, paths: seq<Path>): set<Path> {
    set p | p in paths && !git.tracked(attempt, p)
  }

  // One failed add that named paths: what is shed is recorded.
  function Shed(git: Git, s: Staging, report: Report): Staging {
    Staging(
      s.attempt + 1,
      RetryPaths(git, s.attempt, s.pending, report),
      true,
      s.skippedIgnored + Elements(report.ignored),
      s.skippedMissing + Untracked(git, s.attempt, report.missing))
  }

  datatype Verdict = Done(outcome: Outcome) | Retry(next: Staging)

  function Judge(git: Git, s: Staging, report: Report): Verdict {
    var next := Shed(git, s, report);
    if report.success then Done(Staged(s.skippedIgnored, s.skippedMissing))
    else if report.ignored == [] && report.missing == [] then Done(Failed(GitFailed))
    else if "." in s.pending && report.ignored != [] then Done(Failed(EverythingIgnored))
    else if next.pending == [] then Done(Staged(next.skippedIgnored, next.skippedMissing))
    else if next.pending == s.pending && s.useAddAll then Done(Failed(NoProgress))
    else Retry(next)
  }

  // The loop from a state on: the outcome, and the adds that were made.
  function Loop(git: Git, s: Staging, limit: nat): (Outcome, seq<Call>)
    decreases limit - s.attempt
  {
    if s.attempt >= limit then (Failed(RetryLimitExceeded), [])
    else
      var report := git.add(s.attempt, s.useAddAll, s.pending);
      var call := Call(s.useAddAll, s.pending, report.success);
      match Judge(git, s, report)
      case Done(outcome) => (outcome, [call])
      case Retry(next) =>
        var (outcome, calls) := Loop(git, next, limit);
        (outcome, [call] + calls)
  }

  function Begin(paths: seq<Path>): Staging {
    Staging(0, StagePaths(paths), false, {}, {})
  }

  // Math.max(2, n + 2): there is always a path, so this is n + 2.
  function Limit(paths: seq<Path>): nat {
    |StagePaths(paths)| + 2
  }

  // ---- The loop as it is written

  lemma TrimmedSnoc(paths: seq<Path>, k: nat)
    requires k < |paths|
    ensures var path := Text.Trim(paths[k]);
      Trimmed(paths[..k + 1]) == Trimmed(paths[..k]) + if path == "" then [] else [path]
  {
    assert paths[..k + 1][..k] == paths[..k];
  }

  method NormalizePaths(paths: seq<Path>) returns (stagePaths: seq<Path>)
    ensures stagePaths == StagePaths(paths)
  {
    var trimmed: seq<Path> := [];
    for i := 0 to |paths|
      invariant trimmed == Trimmed(paths[..i])
    {
      TrimmedSnoc(paths, i);
      var path := Text.Trim(paths[i]);
      if path != "" {
        trimmed := trimmed + [path];
      }
    }
    assert paths[..|paths|] == paths;
    stagePaths := Dedup(trimmed);
    if stagePaths == [] {
      stagePaths := ["."];
    }
  }

  // What the loop does with one report.
  method Triage(git: Git, s: Staging, report: Report) returns (verdict: Verdict)
    ensures verdict == Judge(git, s, report)
  {
    if report.success {
      return Done(Staged(s.skippedIgnored, s.skippedMissing));
    }
    if report.ignored == [] && report.missing == [] {
      return Done(Failed(GitFailed));
    }
    if "." in s.pending && report.ignored != [] {
      return Done(Failed(EverythingIgnored));
    }
    var skippedIgnored := s.skippedIgnored + Elements(report.ignored);
    var skippedMissing := s.skippedMissing + Untracked(git, s.attempt, report.missing);
    var retryPaths := RetryPaths(git, s.attempt, s.pending, report);
    if retryPaths == [] {
      return Done(Staged(skippedIgnored, skippedMissing));
    }
    if retryPaths == s.pending && s.useAddAll {
      return Done(Failed(NoProgress));
    }
    return Retry(Staging(s.attempt + 1, retryPaths, true, skippedIgnored, skippedMissing));
  }

  ghost predicate Extends(whole: (Outcome, seq<Call>), log: seq<Call>, rest: (Outcome, seq<Call>)) {
    whole.0 == rest.0 && whole.1 == log + rest.1
  }

  lemma ExtendsMore(whole: (Outcome, seq<Call>), log: seq<Call>, call: Call, rest: (Outcome, seq<Call>))
    requires Extends(whole, log, (rest.0, [call] + rest.1))
    ensures Extends(whole, log + [call], rest)
  {
    assert log + ([call] + rest.1) == log + [call] + rest.1;
  }

  // `log` lists the adds git was asked for.
  method AddUntilDone(git: Git, stagePaths: seq<Path>, attemptLimit: nat) returns (outcome: Outcome, log: seq<Call>)
    ensures (outcome, log) == Loop(git, Staging(0, stagePaths, false, {}, {}), attemptLimit)
  {
    var s := Staging(0, stagePaths, false, {}, {});
    ghost var whole := Loop(git, s, attemptLimit);
    log := [];
    assert [] + whole.1 == whole.1;
    while s.attempt < attemptLimit
      invariant Extends(whole, log, Loop(git, s, attemptLimit))
      decreases attemptLimit - s.attempt
    {
      var report := git.add(s.attempt, s.useAddAll, s.pending);
      var call := Call(s.useAddAll, s.pending, report.success);
      var verdict := Triage(git, s, report);
      if verdict.Done? {
        return verdict.outcome, log + [call];
      }
      ExtendsMore(whole, log, call, Loop(git, verdict.next, attemptLimit));
      log := log + [call];
      s := verdict.next;
    }
    assert log + [] == log;
    return Failed(RetryLimitExceeded), log;
  }

  method StageChanges(git: Git, paths: seq<Path>) returns (outcome: Outcome, log: seq<Call>)
    ensures (outcome, log) == Loop(git, Begin(paths), Limit(paths))
  {
    var stagePaths := NormalizePaths(paths);
    var attemptLimit := if 2 > |stagePaths| + 2 then 2 else |stagePaths| + 2;
    outcome, log := AddUntilDone(git, stagePaths, attemptLimit);
  }

  // ---- What success means

  // Nothing that was asked for is lost on the way.
  ghost predicate AccountsFor(s: Staging, asked: seq<Path>) {
    forall p :: p in asked ==> p in s.pending || p in s.skippedIgnored || p in s.skippedMissing
  }

  ghost predicate Added(calls: seq<Call>, p: Path) {
    exists i :: 0 <= i < |calls| && calls[i].success && p in calls[i].paths
  }

  ghost predicate Covered(result: (Outcome, seq<Call>), asked: seq<Path>) {
    result.0.Staged? ==> forall p :: p in asked ==>
      Added(result.1, p) || p in result.0.skippedIgnored || p in result.0.skippedMissing
  }

  lemma DoneCovers(git: Git, s: Staging, report: Report, asked: seq<Path>)
    requires AccountsFor(s, asked) && Judge(git, s, report).Done?
    ensures Covered((Judge(git, s, report).outcome, [Call(s.useAddAll, s.pending, report.success)]), asked)
  {
    var calls := [Call(s.useAddAll, s.pending, report.success)];
    if report.success {
      forall p | p in s.pending ensures Added(calls, p) { assert calls[0].success && p in calls[0].paths; }
    }
  }

  lemma RetryAccounts(git: Git, s: Staging, report: Report, asked: seq<Path>)
    requires AccountsFor(s, asked)
    ensures AccountsFor(Shed(git, s, report), asked)
  {
  }

  lemma CoveredLater(call: Call, result: (Outcome, seq<Call>), asked: seq<Path>)
    requires Covered(result, asked)
    ensures Covered((result.0, [call] + result.1), asked)
  {
    var calls := [call] + result.1;
    forall p | Added(result.1, p) ensures Added(calls, p) {
      var i :| 0 <= i < |result.1| && result.1[i].success && p in result.1[i].paths;
      assert calls[i + 1] == result.1[i];
    }
  }

  lemma {:induction false} LoopAccounts(git: Git, s: Staging, limit: nat, asked: seq<Path>)
    requires AccountsFor(s, asked)
    ensures Covered(Loop(git, s, limit), asked)
    decreases limit - s.attempt
  {
    if s.attempt < limit {
      var report := git.add(s.attempt, s.useAddAll, s.pending);
      match Judge(git, s, report)
      case Done(_) => DoneCovers(git, s, report, asked);
      case Retry(next) =>
        RetryAccounts(git, s, report, asked);
        LoopAccounts(git, next, limit, asked);
        CoveredLater(Call(s.useAddAll, s.pending, report.success), Loop(git, next, limit), asked);
    }
  }

  // On success every path asked for was part of an add that git accepted, or is on one
  // of the two lists of skipped paths.
  lemma SuccessCoversEveryPath(git: Git, paths: seq<Path>)
    ensures var (outcome, calls) := Loop(git, Begin(paths), Limit(paths));
      outcome.Staged? ==> forall p :: p in StagePaths(paths) ==>
        Added(calls, p) || p in outcome.skippedIgnored || p in outcome.skippedMissing
  {
    LoopAccounts(git, Begin(paths), Limit(paths), StagePaths(paths));
  }

  // ---- Why the loop ends

  // Git only names paths it was given, and with -A a tracked path without a file is a
  // deletion, not an error.
  ghost predicate WellBehaved(git: Git) {
    forall n: nat, all: bool, paths: seq<Path> :: NamesOnlyGiven(git, n, all, paths)
  }

  ghost predicate NamesOnlyGiven(git: Git, n: nat, all: bool, paths: seq<Path>) {
    var report := git.add(n, all, paths);
    && (forall p :: p in report.ignored || p in report.missing ==> p in paths)
    && (all ==> forall p :: p in report.missing ==> !git.tracked(n, p))
  }

  lemma {:induction false} SizeOfElements(s: seq<Path>)
    requires NoDuplicates(s)
    ensures |Elements(s)| == |s|
  {
    if s != [] {
      var init, last := s[..|s| - 1], s[|s| - 1];
      SizeOfElements(init);
      assert s == init + [last];
      assert Elements(s) == Elements(init) + {last};
    }
  }

  lemma FewerElements(a: seq<Path>, b: seq<Path>)
    requires NoDuplicates(a) && NoDuplicates(b) && forall p :: p in a ==> p in b
    ensures |a| <= |b|
    ensures (exists p :: p in b && p !in a) ==> |a| < |b|
  {
    SizeOfElements(a);
    SizeOfElements(b);
    SubsetSize(Elements(a), Elements(b));
    if exists p :: p in b && p !in a {
      var p :| p in b && p !in a;
      assert p in Elements(b) && p !in Elements(a);
    }
  }

  lemma {:induction false} SubsetSize(a: set<Path>, b: set<Path>)
    requires a <= b
    ensures |a| <= |b| && (a != b ==> |a| < |b|)
  {
    assert b == a + (b - a) && a * (b - a) == {};
    assert |b| == |a| + |b - a|;
    if |b - a| == 0 {
      assert b - a == {};
      assert a == b;
    }
  }

  // A retry after plain add keeps at most what it had; a retry after add -A has lost a path.
  lemma RetryIsSmaller(git: Git, s: Staging)
    requires WellBehaved(git) && NoDuplicates(s.pending)
    ensures var report := git.add(s.attempt, s.useAddAll, s.pending);
      var next := Shed(git, s, report);
      && NoDuplicates(next.pending) && |next.pending| <= |s.pending|
      && (s.useAddAll && (report.ignored != [] || report.missing != []) ==> |next.pending| < |s.pending|)
  {
    var report := git.add(s.attempt, s.useAddAll, s.pending);
    var next := Shed(git, s, report);
    assert NamesOnlyGiven(git, s.attempt, s.useAddAll, s.pending);
    FewerElements(next.pending, s.pending);
    if s.useAddAll && report.ignored != [] && report.missing == [] {
      assert report.ignored[0] in s.pending && report.ignored[0] !in next.pending;
    } else if s.useAddAll && report.missing != [] {
      assert report.missing[0] in s.pending && report.missing[0] !in next.pending;
    }
  }

  // Only the first add may keep all its paths; every later one has lost a path.
  ghost predicate Dwindling(s: Staging, n: nat) {
    && NoDuplicates(s.pending) && s.pending != []
    && (if s.attempt == 0 then |s.pending| <= n else s.useAddAll && |s.pending| + s.attempt <= n + 1)
  }

  lemma {:induction false} DwindlingEnds(git: Git, s: Staging, n: nat)
    requires WellBehaved(git) && Dwindling(s, n)
    ensures var (outcome, calls) := Loop(git, s, n + 2);
      && |calls| + s.attempt <= n + 1
      && (outcome.Staged? || outcome == Failed(GitFailed) || outcome == Failed(EverythingIgnored))
    decreases n + 2 - s.attempt
  {
    var report := git.add(s.attempt, s.useAddAll, s.pending);
    RetryIsSmaller(git, s);
    match Judge(git, s, report)
    case Done(_) =>
    case Retry(next) => DwindlingEnds(git, next, n);
  }

  // With a git that behaves, n paths take at most n + 1 adds, neither the retry limit nor
  // a round without progress is ever met, and the only failures are git's own.
  lemma BehavedGitNeedsFewAdds(git: Git, paths: seq<Path>)
    requires WellBehaved(git)
    ensures var (outcome, calls) := Loop(git, Begin(paths), Limit(paths));
      && |calls| <= |StagePaths(paths)| + 1
      && (outcome.Failed? ==> outcome.why == GitFailed || outcome.why == EverythingIgnored)
  {
    DwindlingEnds(git, Begin(paths), |StagePaths(paths)|);
  }

  // A git that names a new tracked path every time: what the limit is there for.
  function NameOf(n: nat): Path {
    seq(n + 1, _ => 'a')
  }

  function Rambling(): Git {
    Git((n: nat, all: bool, paths: seq<Path>) => Report(false, [], [NameOf(n + 1)]), (n: nat, p: Path) => true)
  }

  lemma NewPathIsRetried(git: Git, s: Staging, report: Report, p: Path)
    requires !report.success && report.ignored == [] && p in report.missing && p !in s.pending
    requires git.tracked(s.attempt, p)
    ensures Judge(git, s, report) == Retry(Shed(git, s, report))
  {
    assert p in Shed(git, s, report).pending;
  }

  lemma RamblingRetries(s: Staging)
    requires forall p :: p in s.pending ==> |p| <= s.attempt + 1
    ensures var report := Rambling().add(s.attempt, s.useAddAll, s.pending);
      var next := Shed(Rambling(), s, report);
      && Judge(Rambling(), s, report) == Retry(next)
      && forall p :: p in next.pending ==> |p| <= next.attempt + 1
  {
    var named := NameOf(s.attempt + 1);
    assert |named| == s.attempt + 2;
    var report := Rambling().add(s.attempt, s.useAddAll, s.pending);
    assert report == Report(false, [], [named]);
    NewPathIsRetried(Rambling(), s, report, named);
    forall p | p in Shed(Rambling(), s, report).pending ensures |p| <= s.attempt + 2 {
      assert p in s.pending || p == named;
    }
  }

  lemma {:induction false} RamblingNeverStops(s: Staging, limit: nat)
    requires forall p :: p in s.pending ==> |p| <= s.attempt + 1
    ensures Loop(Rambling(), s, limit).0 == Failed(RetryLimitExceeded)
    decreases limit - s.attempt
  {
    if s.attempt < limit {
      RamblingRetries(s);
      RamblingNeverStops(Shed(Rambling(), s, Rambling().add(s.attempt, s.useAddAll, s.pending)), limit);
    }
  }

  lemma OnlyPathIsStaged()
    ensures StagePaths(["a"]) == ["a"]
  {
    Text.TrimmedIsFixed("a");
    assert ["a"][..0] == [];
    assert Trimmed(["a"]) == ["a"];
    assert Dedup<Path>([]) == [];
    assert Dedup(["a"]) == ["a"];
  }

  lemma RamblingMisbehaves()
    ensures !WellBehaved(Rambling())
  {
    assert NameOf(1) in Rambling().add(0, false, []).missing;
    assert !NamesOnlyGiven(Rambling(), 0, false, []);
  }

  // Without that assumption the retry limit is met.
  lemma LimitIsMet()
    ensures !WellBehaved(Rambling())
    ensures Loop(Rambling(), Begin(["a"]), Limit(["a"])).0 == Failed(RetryLimitExceeded)
  {
    RamblingMisbehaves();
    OnlyPathIsStaged();
    RamblingNeverStops(Begin(["a"]), Limit(["a"]));
  }
}
