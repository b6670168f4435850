/** The one table of git-sync outcome codes: the exit status and the alert threshold of every run come from it. */
module GitSyncCodes {
  datatype Code =
    | OkCode | Disabled | LiveTreeBehind | HeldBack | NestedRepo | InProgressOperation | UnmergedPaths | MergeConflict
    | DetachedHead | UnrelatedHistories | GitTooOld | IndexLocked | LockTimeout | BoxLocked | RemoteUnreachable
    | PushFailed | DeadlineExceeded | NotConfigured | Usage | FailedCode

  datatype Outcome = Ok | Warning | Off | Held | Refused | Failed

  /** `notifyAfter` is NO_THRESHOLD where the table names none. */
  datatype CodeInfo = CodeInfo(outcome: Outcome, exitCode: nat, notifyAfter: nat)

  const NO_THRESHOLD: nat := 0

  function GetGitSyncCode(code: Code): CodeInfo {
    match code
    case OkCode => CodeInfo(Ok, 0, NO_THRESHOLD)
    case Disabled => CodeInfo(Off, 0, NO_THRESHOLD)
    case LiveTreeBehind => CodeInfo(Warning, 0, 3)
    case HeldBack => CodeInfo(Warning, 0, 1)
    case NestedRepo => CodeInfo(Warning, 0, 1)
    case InProgressOperation => CodeInfo(Refused, 1, 1)
    case UnmergedPaths => CodeInfo(Refused, 1, 1)
    case MergeConflict => CodeInfo(Held, 1, 1)
    case DetachedHead => CodeInfo(Refused, 1, 1)
    case UnrelatedHistories => CodeInfo(Refused, 1, 1)
    case GitTooOld => CodeInfo(Refused, 1, 1)
    case IndexLocked => CodeInfo(Refused, 1, 1)
    case LockTimeout => CodeInfo(Refused, 75, 3)
    case BoxLocked => CodeInfo(Refused, 75, 3)
    case RemoteUnreachable => CodeInfo(Failed, 1, 3)
    case PushFailed => CodeInfo(Failed, 1, 3)
    case DeadlineExceeded => CodeInfo(Failed, 75, 3)
    case NotConfigured => CodeInfo(Failed, 1, 1)
    case Usage => CodeInfo(Failed, 2, NO_THRESHOLD)
    case FailedCode => CodeInfo(Failed, 1, 3)
  }

  predicate IsGitSyncSuccess(outcome: Outcome) {
    outcome == Ok || outcome == Warning
  }

  /** A run exits 0 exactly when it succeeded or was switched off, and no threshold is above three runs. */
  lemma ExitStatusFollowsOutcome(code: Code)
    ensures GetGitSyncCode(code).exitCode == 0 <==>
            IsGitSyncSuccess(GetGitSyncCode(code).outcome) || GetGitSyncCode(code).outcome == Off
    ensures GetGitSyncCode(code).notifyAfter <= 3
  {
  }
}
