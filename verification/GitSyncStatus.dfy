/**
 * The status file's fold over git-sync runs. Each run sees only the record before it; the lemmas read that record off the
 * whole history of runs.
 */
module GitSyncStatus {
  import opened Wrappers
  import opened PathTrees
  import opened GitSyncCodes

  const ALERT_AFTER: nat := 24 * 60 * 60 * 1000
  const OWNED_OPERATION_THRESHOLD: nat := 2
  const REPORTED_PATHS: nat := 20

  /** What a run hands over. A list that is None was never made: the run ended before it scanned. */
  datatype Run = Run(at: nat, code: Option<Code>, outcome: Option<Outcome>, pushed: bool, pushedSha: string, owners: nat,
                     singleFile: bool, behind: Option<seq<Path>>, heldBack: Option<seq<Path>>, nestedRepos: Option<seq<Path>>)

  datatype Episode = Episode(since: nat, runs: nat, paths: seq<Path>)

  datatype Status = Status(code: Code, outcome: Outcome, owners: nat, attemptId: nat, consecutiveFailures: nat, sameCodeRuns: nat,
                           firstFailureAt: Option<nat>, lastSuccessAt: Option<nat>, lastPushedSha: string,
                           liveTreeBehind: Option<Episode>, heldBack: Option<Episode>, nestedRepos: Option<Episode>)

  function CodeOf(run: Run): Code {
    if run.code.Some? then run.code.value else FailedCode
  }

  function OutcomeOf(run: Run): Outcome {
    if run.outcome.Some? then run.outcome.value else GetGitSyncCode(CodeOf(run)).outcome
  }

  predicate Succeeds(run: Run) {
    IsGitSyncSuccess(OutcomeOf(run))
  }

  predicate Fails(run: Run) {
    !Succeeds(run) && OutcomeOf(run) != Off
  }

  function FirstPaths(paths: seq<Path>): seq<Path> {
    if |paths| > REPORTED_PATHS then paths[..REPORTED_PATHS] else paths
  }

  // ---- One run ----

  function Continued(prev: Option<Episode>, at: nat, paths: seq<Path>): Option<Episode> {
    Some(Episode(if prev.Some? then prev.value.since else at, if prev.Some? then prev.value.runs + 1 else 1, paths))
  }

  function NextBehind(prev: Option<Episode>, run: Run): Option<Episode> {
    if run.behind.Some? then Continued(prev, run.at, run.behind.value)
    else if Succeeds(run) || OutcomeOf(run) == Off then None
    else prev
  }

  function NextScanned(prev: Option<Episode>, run: Run, found: Option<seq<Path>>): Option<Episode> {
    if found.Some? && (found.value != [] || !run.singleFile) then
      if found.value != [] then Continued(prev, run.at, FirstPaths(found.value)) else None
    else if OutcomeOf(run) == Off then None
    else prev
  }

  function BuildNextStatus(previous: Option<Status>, run: Run): Status {
    var p := if previous.Some? then previous.value else Status(OkCode, Ok, 0, 0, 0, 0, None, None, "", None, None, None);
    var sameFailure := Fails(run) && previous.Some? && p.code == CodeOf(run);
    Status(CodeOf(run), OutcomeOf(run), run.owners, p.attemptId + 1,
           if Fails(run) then p.consecutiveFailures + 1 else 0,
           if !Fails(run) then 0 else if sameFailure then p.sameCodeRuns + 1 else 1,
           if !Fails(run) then None else if p.firstFailureAt.Some? then p.firstFailureAt else Some(run.at),
           if Succeeds(run) then Some(run.at) else p.lastSuccessAt,
           if run.pushed && run.pushedSha != "" then run.pushedSha else p.lastPushedSha,
           NextBehind(p.liveTreeBehind, run),
           NextScanned(p.heldBack, run, run.heldBack),
           NextScanned(p.nestedRepos, run, run.nestedRepos))
  }

  function Fold(history: seq<Run>): Option<Status> {
    if history == [] then None else Some(BuildNextStatus(Fold(history[..|history| - 1]), history[|history| - 1]))
  }

  // ---- The history, read as a whole ----

  /** The last `n` runs have the property, and the one before them, if any, has not. */
  ghost predicate IsSuffix(history: seq<Run>, n: nat, p: Run -> bool) {
    n <= |history| &&
    (forall i :: |history| - n <= i < |history| ==> p(history[i])) &&
    (n < |history| ==> !p(history[|history| - n - 1]))
  }

  function FailsWith(code: Code): Run -> bool {
    (run: Run) => Fails(run) && CodeOf(run) == code
  }

  function Failing(): Run -> bool {
    (run: Run) => Fails(run)
  }

  function Succeeding(): Run -> bool {
    (run: Run) => Succeeds(run)
  }

  function Pushing(): Run -> bool {
    (run: Run) => run.pushed && run.pushedSha != ""
  }

  /** The latest run with the property is run `k`, or no run has it. */
  ghost predicate IsLatest(history: seq<Run>, k: Option<nat>, p: Run -> bool) {
    match k
    case None => forall i :: 0 <= i < |history| ==> !p(history[i])
    case Some(k) => k < |history| && p(history[k]) && forall i :: k < i < |history| ==> !p(history[i])
  }

  datatype Mark = Shows(paths: seq<Path>) | Ends | Silent

  function BehindMark(run: Run): Mark {
    match run.behind
    case Some(paths) => Shows(paths)
    case None => if Fails(run) then Silent else Ends
  }

  /** Only a disabled run, or a scan of the whole scope that found nothing, ends the episode. */
  function ScanMark(run: Run, found: Option<seq<Path>>): Mark {
    if found.Some? && found.value != [] then Shows(FirstPaths(found.value))
    else if OutcomeOf(run) == Off || (found.Some? && !run.singleFile) then Ends
    else Silent
  }

  function BehindMarks(): Run -> Mark {
    (run: Run) => BehindMark(run)
  }

  function HeldMarks(): Run -> Mark {
    (run: Run) => ScanMark(run, run.heldBack)
  }

  function NestedMarks(): Run -> Mark {
    (run: Run) => ScanMark(run, run.nestedRepos)
  }

  function CountShows(history: seq<Run>, mark: Run -> Mark): nat {
    if history == [] then 0
    else CountShows(history[..|history| - 1], mark) + if mark(history[|history| - 1]).Shows? then 1 else 0
  }

  /** No run from `from` on ends the episode. */
  ghost predicate NoEndFrom(history: seq<Run>, from: nat, mark: Run -> Mark) {
    forall i :: from <= i < |history| ==> !mark(history[i]).Ends?
  }

  /** The episode that is open after the history: its first run, how many runs showed it, and what the last of them showed. */
  ghost predicate IsOpenEpisode(history: seq<Run>, e: Option<Episode>, mark: Run -> Mark) {
    match e
    case None => forall i :: 0 <= i < |history| && mark(history[i]).Shows? ==> !NoEndFrom(history, i, mark)
    case Some(episode) => exists first: nat, last: nat :: IsEpisodeFrom(history, episode, mark, first, last)
  }

  ghost predicate IsEpisodeFrom(history: seq<Run>, e: Episode, mark: Run -> Mark, first: nat, last: nat) {
    first <= last < |history| &&
    mark(history[first]).Shows? && history[first].at == e.since && NoEndFrom(history, first, mark) &&
    (forall i :: 0 <= i < first && mark(history[i]).Shows? ==> !NoEndFrom(history[..first], i, mark)) &&
    CountShows(history[first..], mark) == e.runs &&
    mark(history[last]) == Shows(e.paths) && forall i :: last < i < |history| ==> !mark(history[i]).Shows?
  }

  function NextEpisode(prev: Option<Episode>, run: Run, mark: Run -> Mark): Option<Episode> {
    match mark(run)
    case Shows(paths) => Continued(prev, run.at, paths)
    case Ends => None
    case Silent => prev
  }

  lemma EpisodeStep(history: seq<Run>, run: Run, prev: Option<Episode>, mark: Run -> Mark)
    requires IsOpenEpisode(history, prev, mark)
    ensures IsOpenEpisode(history + [run], NextEpisode(prev, run, mark), mark)
  {
    match mark(run)
    case Ends => EpisodeEnds(history, run, mark);
    case Shows(paths) =>
      if prev.Some? {
        EpisodeGoesOn(history, run, prev.value, mark);
      } else {
        EpisodeBegins(history, run, mark);
      }
    case Silent =>
      if prev.Some? {
        EpisodeGoesOn(history, run, prev.value, mark);
      } else {
        EpisodeEnds(history, run, mark);
      }
  }

  /** After a run that does not show it, no episode is open unless one was. */
  lemma EpisodeEnds(history: seq<Run>, run: Run, mark: Run -> Mark)
    requires mark(run).Ends? || (mark(run).Silent? && IsOpenEpisode(history, None, mark))
    ensures IsOpenEpisode(history + [run], None, mark)
  {
    var more := history + [run];
    forall i | 0 <= i < |more| && mark(more[i]).Shows? ensures !NoEndFrom(more, i, mark) {
      if mark(run).Ends? {
        assert more[|history|] == run;
      } else {
        assert !NoEndFrom(history, i, mark);
        var j :| i <= j < |history| && mark(history[j]).Ends?;
        assert more[j] == history[j];
      }
    }
  }

  lemma EpisodeBegins(history: seq<Run>, run: Run, mark: Run -> Mark)
    requires mark(run).Shows? && IsOpenEpisode(history, None, mark)
    ensures IsOpenEpisode(history + [run], Some(Episode(run.at, 1, mark(run).paths)), mark)
  {
    var more, n := history + [run], |history|;
    assert more[..n] == history && more[n..] == [run] && [run][..0] == more[..0];
    assert CountShows([run], mark) == 1;
    assert IsEpisodeFrom(more, Episode(run.at, 1, mark(run).paths), mark, n, n);
  }

  lemma EpisodeGoesOn(history: seq<Run>, run: Run, e: Episode, mark: Run -> Mark)
    requires IsOpenEpisode(history, Some(e), mark) && !mark(run).Ends?
    ensures IsOpenEpisode(history + [run], if mark(run).Shows? then Some(Episode(e.since, e.runs + 1, mark(run).paths)) else Some(e), mark)
  {
    var more, n := history + [run], |history|;
    var first: nat, last: nat :| IsEpisodeFrom(history, e, mark, first, last);
    assert more[..first] == history[..first];
    assert more[first..] == history[first..] + [run];
    assert more[first..][..n - first] == history[first..];
    assert IsEpisodeFrom(more, if mark(run).Shows? then Episode(e.since, e.runs + 1, mark(run).paths) else e, mark, first,
                         if mark(run).Shows? then n else last);
  }

  // ---- The fold is that reading ----

  ghost predicate Tells(history: seq<Run>, s: Status) {
    history != [] &&
    s.code == CodeOf(history[|history| - 1]) &&
    s.outcome == OutcomeOf(history[|history| - 1]) &&
    s.owners == history[|history| - 1].owners &&
    s.attemptId == |history|
  }

  ghost predicate TellsFailures(history: seq<Run>, s: Status) {
    IsSuffix(history, s.consecutiveFailures, Failing()) &&
    IsSuffix(history, s.sameCodeRuns, FailsWith(s.code)) &&
    s.firstFailureAt == if s.consecutiveFailures == 0 then None else Some(history[|history| - s.consecutiveFailures].at)
  }

  ghost predicate TellsLastSuccess(history: seq<Run>, at: Option<nat>) {
    exists k: Option<nat> :: IsLatest(history, k, Succeeding()) && at == if k.Some? then Some(history[k.value].at) else None
  }

  ghost predicate TellsLastPush(history: seq<Run>, sha: string) {
    exists k: Option<nat> :: IsLatest(history, k, Pushing()) && sha == if k.Some? then history[k.value].pushedSha else ""
  }

  ghost predicate TellsEpisodes(history: seq<Run>, behind: Option<Episode>, held: Option<Episode>, nested: Option<Episode>) {
    IsOpenEpisode(history, behind, BehindMarks()) && IsOpenEpisode(history, held, HeldMarks()) &&
    IsOpenEpisode(history, nested, NestedMarks())
  }

  /**
   * After any history of runs the record tells its failing suffix and that suffix's first time, the suffix with one code,
   * the latest success and the latest pushed commit, and every open episode.
   */
  lemma FoldTellsHistory(history: seq<Run>)
    requires history != []
    ensures
      var s := Fold(history).value;
      Tells(history, s) && TellsFailures(history, s) &&
      TellsLastSuccess(history, s.lastSuccessAt) && TellsLastPush(history, s.lastPushedSha) &&
      TellsEpisodes(history, s.liveTreeBehind, s.heldBack, s.nestedRepos)
  {
    FailuresAreTold(history);
    SuccessesAreTold(history);
    EpisodesAreTold(history);
  }

  lemma FoldOneMore(history: seq<Run>)
    requires history != []
    ensures
      var before, run := history[..|history| - 1], history[|history| - 1];
      history == before + [run] && Fold(history) == Some(BuildNextStatus(Fold(before), run))
  {
  }

  lemma {:induction false} FailuresAreTold(history: seq<Run>)
    requires history != []
    ensures Tells(history, Fold(history).value) && TellsFailures(history, Fold(history).value)
    decreases |history|
  {
    var before, run := history[..|history| - 1], history[|history| - 1];
    FoldOneMore(history);
    if before != [] {
      FailuresAreTold(before);
      FailuresStep(before, Fold(before).value, run);
    } else {
      FirstRun(run);
    }
  }

  lemma {:induction false} SuccessesAreTold(history: seq<Run>)
    ensures TellsLastSuccess(history, if history == [] then None else Fold(history).value.lastSuccessAt)
    ensures TellsLastPush(history, if history == [] then "" else Fold(history).value.lastPushedSha)
    decreases |history|
  {
    if history == [] {
      assert IsLatest(history, None, Succeeding()) && IsLatest(history, None, Pushing());
    } else {
      var before, run := history[..|history| - 1], history[|history| - 1];
      FoldOneMore(history);
      SuccessesAreTold(before);
      SuccessesStep(before, if before == [] then None else Fold(before).value.lastSuccessAt,
                    if before == [] then "" else Fold(before).value.lastPushedSha, run);
    }
  }

  lemma {:induction false} EpisodesAreTold(history: seq<Run>)
    ensures history == [] ==> TellsEpisodes(history, None, None, None)
    ensures history != [] ==>
      var s := Fold(history).value; TellsEpisodes(history, s.liveTreeBehind, s.heldBack, s.nestedRepos)
    decreases |history|
  {
    if history != [] {
      var before, run := history[..|history| - 1], history[|history| - 1];
      FoldOneMore(history);
      EpisodesAreTold(before);
      if before == [] {
        EpisodesStep(before, None, None, None, run);
      } else {
        var prev := Fold(before).value;
        EpisodesStep(before, prev.liveTreeBehind, prev.heldBack, prev.nestedRepos, run);
      }
    }
  }

  lemma FirstRun(run: Run)
    ensures Tells([] + [run], BuildNextStatus(None, run)) && TellsFailures([] + [run], BuildNextStatus(None, run))
  {
  }

  lemma FailuresStep(before: seq<Run>, prev: Status, run: Run)
    requires Tells(before, prev) && TellsFailures(before, prev)
    ensures Tells(before + [run], BuildNextStatus(Some(prev), run)) && TellsFailures(before + [run], BuildNextStatus(Some(prev), run))
  {
    var s, more := BuildNextStatus(Some(prev), run), before + [run];
    if Fails(run) {
      SuffixStep(before, run, prev.consecutiveFailures, Failing());
      SameCodeStep(before, prev, run);
    } else {
      assert IsSuffix(more, 0, Failing()) && IsSuffix(more, 0, FailsWith(s.code));
    }
  }

  lemma SameCodeStep(before: seq<Run>, prev: Status, run: Run)
    requires Tells(before, prev) && TellsFailures(before, prev) && Fails(run)
    ensures IsSuffix(before + [run], if prev.code == CodeOf(run) then prev.sameCodeRuns + 1 else 1, FailsWith(CodeOf(run)))
  {
    if prev.code == CodeOf(run) {
      SuffixStep(before, run, prev.sameCodeRuns, FailsWith(prev.code));
    } else {
      assert !FailsWith(CodeOf(run))(before[|before| - 1]);
      SuffixStep(before, run, 0, FailsWith(CodeOf(run)));
    }
  }

  lemma SuffixStep(before: seq<Run>, run: Run, n: nat, p: Run -> bool)
    requires IsSuffix(before, n, p) && p(run)
    ensures IsSuffix(before + [run], n + 1, p)
  {
  }

  lemma LatestStep(before: seq<Run>, run: Run, k: Option<nat>, p: Run -> bool)
    requires IsLatest(before, k, p)
    ensures IsLatest(before + [run], if p(run) then Some(|before|) else k, p)
  {
  }

  lemma SuccessesStep(before: seq<Run>, at: Option<nat>, sha: string, run: Run)
    requires TellsLastSuccess(before, at) && TellsLastPush(before, sha)
    ensures TellsLastSuccess(before + [run], if Succeeds(run) then Some(run.at) else at)
    ensures TellsLastPush(before + [run], if run.pushed && run.pushedSha != "" then run.pushedSha else sha)
  {
    var k: Option<nat> :| IsLatest(before, k, Succeeding()) && at == if k.Some? then Some(before[k.value].at) else None;
    LatestStep(before, run, k, Succeeding());
    var l: Option<nat> :| IsLatest(before, l, Pushing()) && sha == if l.Some? then before[l.value].pushedSha else "";
    LatestStep(before, run, l, Pushing());
  }

  lemma EpisodesStep(before: seq<Run>, behind: Option<Episode>, held: Option<Episode>, nested: Option<Episode>, run: Run)
    requires TellsEpisodes(before, behind, held, nested)
    ensures TellsEpisodes(before + [run], NextBehind(behind, run), NextScanned(held, run, run.heldBack),
                          NextScanned(nested, run, run.nestedRepos))
  {
    EpisodeStep(before, run, behind, BehindMarks());
    EpisodeStep(before, run, held, HeldMarks());
    EpisodeStep(before, run, nested, NestedMarks());
    MarksDecide(behind, held, nested, run);
  }

  lemma MarksDecide(behind: Option<Episode>, held: Option<Episode>, nested: Option<Episode>, run: Run)
    ensures NextBehind(behind, run) == NextEpisode(behind, run, BehindMarks())
    ensures NextScanned(held, run, run.heldBack) == NextEpisode(held, run, HeldMarks())
    ensures NextScanned(nested, run, run.nestedRepos) == NextEpisode(nested, run, NestedMarks())
  {
  }

  /** A failed run ends the held-back episode exactly when it had scanned the whole scope and found nothing. */
  lemma FailedRunEndsHeldBackExactlyWhen(history: seq<Run>, run: Run)
    requires history != [] && Fold(history).value.heldBack.Some? && Fails(run)
    ensures Fold(history + [run]).value.heldBack.None? <==> run.heldBack == Some([]) && !run.singleFile
  {
    FoldOneMore(history + [run]);
  }

  /** A push is refused after a scan that found nothing: the run fails, and the episode of the run before is over. */
  lemma FailedRunEndsHeldBack(at: nat, path: Path)
    ensures
      var scanned := Run(at, Some(OkCode), None, false, "", 0, false, None, Some([path]), Some([]));
      var refused := scanned.(code := Some(PushFailed), heldBack := Some([]));
      Fails(refused) && Fold([scanned]).value.heldBack == Some(Episode(at, 1, [path])) &&
      Fold([scanned, refused]).value.heldBack == None
  {
    var scanned := Run(at, Some(OkCode), None, false, "", 0, false, None, Some([path]), Some([]));
    var refused := scanned.(code := Some(PushFailed), heldBack := Some([]));
    FoldOneMore([scanned]);
    FailedRunEndsHeldBackExactlyWhen([scanned], refused);
    assert [scanned] + [refused] == [scanned, refused];
  }

  // ---- Alerts ----

  function Threshold(s: Status): nat {
    var after := GetGitSyncCode(s.code).notifyAfter;
    var least := if after == NO_THRESHOLD then 1 else after;
    if s.code == InProgressOperation && s.owners > 0 && least < OWNED_OPERATION_THRESHOLD then OWNED_OPERATION_THRESHOLD else least
  }

  predicate IsGitSyncFailureAlertable(status: Option<Status>, now: nat) {
    status.Some? && !IsGitSyncSuccess(status.value.outcome) && status.value.firstFailureAt.Some? &&
    (status.value.consecutiveFailures >= Threshold(status.value) || now - status.value.firstFailureAt.value >= ALERT_AFTER)
  }

  /** Three failures in a row alert, whatever their codes; so does any failing streak that began a day ago. */
  lemma ThreeFailuresAlert(history: seq<Run>, n: nat, now: nat)
    requires 0 < n <= |history| && forall i :: |history| - n <= i < |history| ==> Fails(history[i])
    requires n >= 3 || (IsSuffix(history, n, Failing()) && now - history[|history| - n].at >= ALERT_AFTER)
    ensures IsGitSyncFailureAlertable(Fold(history), now)
  {
    FailuresAreTold(history);
    var s := Fold(history).value;
    LongestSuffix(history, n, s.consecutiveFailures);
    ThresholdIsSmall(s);
    AlertsForTold(history, s, now);
  }

  lemma ThresholdIsSmall(s: Status)
    ensures Threshold(s) <= 3
  {
    ExitStatusFollowsOutcome(s.code);
  }

  lemma LongestSuffix(history: seq<Run>, n: nat, longest: nat)
    requires n <= |history| && forall i :: |history| - n <= i < |history| ==> Fails(history[i])
    requires IsSuffix(history, longest, Failing())
    ensures n <= longest && (IsSuffix(history, n, Failing()) ==> n == longest)
  {
  }

  lemma AlertsForTold(history: seq<Run>, s: Status, now: nat)
    requires Tells(history, s) && TellsFailures(history, s)
    ensures IsGitSyncFailureAlertable(Some(s), now) <==> IsAlertingStreak(history, s.consecutiveFailures, Threshold(s), now)
  {
    if s.consecutiveFailures > 0 {
      assert Failing()(history[|history| - 1]);
    }
  }

  /** What alerts is a failing streak, unbroken since the last success or disabled run, that is long or old enough. */
  lemma AlertsExactlyWhen(history: seq<Run>, now: nat)
    requires history != []
    ensures IsGitSyncFailureAlertable(Fold(history), now) <==>
      exists n: nat :: IsAlertingStreak(history, n, Threshold(Fold(history).value), now)
  {
    FailuresAreTold(history);
    var s := Fold(history).value;
    AlertsForTold(history, s, now);
    forall n: nat | IsAlertingStreak(history, n, Threshold(s), now) ensures n == s.consecutiveFailures {
      LongestSuffix(history, n, s.consecutiveFailures);
    }
  }

  ghost predicate IsAlertingStreak(history: seq<Run>, n: nat, threshold: nat, now: nat) {
    0 < n <= |history| && IsSuffix(history, n, Failing()) && (n >= threshold || now - history[|history| - n].at >= ALERT_AFTER)
  }
}
