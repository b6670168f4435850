/**
 * One `openclaw` command as a child process: output, exit, close, error, the time limit, the grace timer and the wait for
 * its process group arrive in any order, and the call settles once. Every method is one callback.
 */
module ClawCommand {
  import opened Wrappers
  import opened Text

  datatype Stream = Stdout | Stderr

  datatype CodeValue = NoCode | Exited(status: int) | Named(name: string)

  datatype Result = Result(ok: bool, stdout: string, stderr: string, code: CodeValue, killed: bool, signal: Option<string>, timedOut: bool)

  /** A signal, and whether it went to the whole group. */
  datatype Kill = Kill(toGroup: bool, signal: string)

  const SIGKILL := "SIGKILL"
  const OVERFLOW_CODE := "ERR_CHILD_PROCESS_STDIO_MAXBUFFER"

  function ByteLength(s: string): nat {
    if s == "" then 0
    else
      (if s[0] < '\U{80}' then 1 else if s[0] < '\U{800}' then 2 else if s[0] < '\U{10000}' then 3 else 4) + ByteLength(s[1..])
  }

  class ClawCmd {
    const killSignal: string
    const graceMs: nat
    const maxBuffer: nat
    /** The child leads a group of its own, which is what gets killed. */
    const ownsGroup: bool

    var timedOut: bool
    var overflow: bool
    var settled: Option<Result>
    var timer: bool
    /** The grace timer that settling clears, and all that are pending. */
    var graceTimer: Option<nat>
    var graceTimers: set<nat>
    var nextTimer: nat
    var stdout: string
    var stderr: string
    var capturedBytes: nat
    var leaderExit: Option<(Option<int>, Option<string>)>
    /** After a close: the result, and when the group stops being waited for. */
    var waiting: Option<(Result, int)>

    ghost var closed: bool
    /** An error event settled the call, which does not end the wait for the group. */
    ghost var erred: bool

    ghost var kills: seq<Kill>
    /** How often a limit stopped the call, and which grace timers have fired; timer i belongs to stop i. */
    ghost var limits: nat
    ghost var fired: set<nat>
    /** At settling: how many signals were sent, and whether another could still follow. */
    ghost var killsAtSettling: nat
    ghost var couldKill: bool
    ghost var output: seq<(Stream, string)>

    ghost predicate OutputIsCaptured()
      reads this`stdout, this`stderr, this`capturedBytes, this`output, this`overflow
    {
      stdout == Written(output, Stdout) && stderr == Written(output, Stderr) && capturedBytes == ByteCount(output) &&
      (overflow <==> capturedBytes > maxBuffer)
    }

    /** Every stop starts a grace timer; it runs until it fires, or until settling clears the last one. */
    ghost predicate IsRunning(t: nat)
      reads this`limits, this`fired, this`settled
    {
      ownsGroup && t < limits && t !in fired && !(settled.Some? && t == limits - 1)
    }

    ghost predicate TimersAreKnown()
      reads this`settled, this`timer, this`graceTimer, this`graceTimers, this`nextTimer, this`limits, this`fired, this`timedOut
    {
      (timedOut <==> limits > 0) && limits <= 2 && (limits == 2 ==> !timer) && (settled.Some? ==> !timer) &&
      nextTimer == (if ownsGroup then limits else 0) && (forall t :: t in fired ==> t < nextTimer) &&
      graceTimer == (if nextTimer == 0 then None else Some(nextTimer - 1)) &&
      forall t: nat :: t in graceTimers <==> IsRunning(t)
    }

    /** Something may still send a signal: a grace timer, or the wait for the group after an error settled the call. */
    ghost predicate CanStillKill()
      reads this`graceTimers, this`erred, this`timedOut, this`closed, this`waiting
    {
      graceTimers != {} || (erred && ownsGroup && timedOut && (!closed || waiting.Some?))
    }

    /** Once nothing can send a signal, none is sent; and but for an error, settling ends the wait for the group. */
    ghost predicate SettlingEndsKills()
      reads this`settled, this`erred, this`closed, this`waiting, this`timedOut, this`kills, this`killsAtSettling, this`couldKill,
            this`graceTimers
    {
      settled.Some? ==>
        (!erred ==> waiting.None? && (timedOut && ownsGroup ==> closed)) &&
        (!couldKill ==> !CanStillKill() && |kills| == killsAtSettling)
    }

    static predicate ResultIsTrue(r: Result)
    {
      (r.ok ==> !r.timedOut && !r.killed && r.code == NoCode && r.signal == None) && r.killed == r.timedOut
    }

    ghost predicate ControlIsSound()
      reads this`settled, this`timer, this`graceTimer, this`graceTimers, this`nextTimer, this`limits, this`fired, this`timedOut,
            this`erred, this`closed, this`waiting, this`kills, this`killsAtSettling, this`couldKill
    {
      TimersAreKnown() && SettlingEndsKills() && (erred ==> settled.Some?) &&
      (settled.Some? ==> ResultIsTrue(settled.value)) &&
      (waiting.Some? ==> closed && timedOut && ownsGroup && !waiting.value.0.ok && ResultIsTrue(waiting.value.0))
    }

    ghost predicate Valid()
      reads this
    {
      OutputIsCaptured() && ControlIsSound() && (overflow ==> timedOut) && OutputLimitComesFirst()
    }

    /** A call is stopped twice only when its output was over the limit before its time was. */
    ghost predicate OutputLimitComesFirst()
      reads this`limits, this`timer, this`overflow
    {
      (limits == 1 && timer ==> overflow) && (limits == 2 ==> overflow)
    }

    constructor (killSignal: string, graceMs: nat, maxBuffer: nat, ownsGroup: bool, limited: bool)
      ensures Valid() && settled.None? && !timedOut && waiting.None? && timer == limited
      ensures this.killSignal == killSignal && this.graceMs == graceMs && this.maxBuffer == maxBuffer && this.ownsGroup == ownsGroup
      ensures limits == 0 && kills == [] && output == [] && leaderExit.None? && capturedBytes == 0 && !overflow && graceTimers == {}
      ensures !closed && !erred && fired == {}
    {
      this.killSignal, this.graceMs, this.maxBuffer, this.ownsGroup := killSignal, graceMs, maxBuffer, ownsGroup;
      timedOut, overflow, settled, waiting, timer := false, false, None, None, limited;
      graceTimer, graceTimers, nextTimer, leaderExit := None, {}, 0, None;
      stdout, stderr, capturedBytes := "", "", 0;
      kills, limits, killsAtSettling, output, closed, erred := [], 0, 0, [], false, false;
      fired, couldKill := {}, false;
    }

    /** The one grace timer that settling clears. */
    function Cleared(): set<nat>
      reads this`graceTimer
    {
      if graceTimer.Some? then {graceTimer.value} else {}
    }

    /** The first result stays. Settling clears the timers the call knows of. */
    method Finish(r: Result)
      requires TimersAreKnown() && ResultIsTrue(r)
      modifies this`settled, this`timer, this`graceTimers, this`killsAtSettling, this`couldKill
      ensures TimersAreKnown()
      ensures settled == if old(settled).Some? then old(settled) else Some(r)
      ensures old(settled).Some? ==>
        timer == old(timer) && graceTimers == old(graceTimers) && killsAtSettling == old(killsAtSettling) && couldKill == old(couldKill)
      ensures old(settled).None? ==>
        killsAtSettling == |kills| && graceTimers == old(graceTimers) - Cleared() && couldKill == CanStillKill()
    {
      if settled.Some? {
        return;
      }
      settled := Some(r);
      timer := false;
      graceTimers := graceTimers - Cleared();
      killsAtSettling, couldKill := |kills|, CanStillKill();
    }

    function BuildResult(code: Option<int>, signal: Option<string>): (r: Result)
      reads this`timedOut, this`overflow, this`stdout, this`stderr
      ensures ResultIsTrue(r)
      ensures r.ok <==> code == Some(0) && !timedOut
      ensures r.stdout == Trim(stdout) && r.stderr == Trim(stderr) && r.timedOut == timedOut
    {
      if code != Some(0) || timedOut then
        Result(false, Trim(stdout), Trim(stderr),
               if overflow then Named(OVERFLOW_CODE) else if code.Some? then Exited(code.value) else NoCode,
               timedOut, if signal.Some? then signal else if timedOut then Some(killSignal) else None, timedOut)
      else Result(true, Trim(stdout), Trim(stderr), NoCode, false, None, false)
    }

    /** To the group while there is one (`groupIsThere`), else to the leader. */
    method SendKill(signal: string, groupIsThere: bool)
      modifies this`kills
      ensures kills == old(kills) + [Kill(ownsGroup && groupIsThere, signal)]
    {
      kills := kills + [Kill(ownsGroup && groupIsThere, signal)];
    }

    /** The time limit and the output limit both end here, so it may run twice. */
    method StopForLimit(groupIsThere: bool)
      requires ControlIsSound() && settled.None? && (limits == 0 || (limits == 1 && !timer))
      modifies this`timedOut, this`limits, this`kills, this`graceTimer, this`graceTimers, this`nextTimer, this`settled, this`timer, this`killsAtSettling, this`couldKill
      ensures ControlIsSound() && timedOut && limits == old(limits) + 1 && (timer ==> old(timer))
      ensures |kills| == |old(kills)| + 1 && old(kills) <= kills
      ensures settled.Some? ==> !ownsGroup && leaderExit.Some? && !settled.value.ok
      ensures ownsGroup ==>
        graceTimer == Some(old(nextTimer)) && graceTimers == old(graceTimers) + {old(nextTimer)} && nextTimer == old(nextTimer) + 1 &&
        settled.None? && timer == old(timer)
    {
      timedOut := true;
      limits := limits + 1;
      SendKill(killSignal, groupIsThere);
      if !ownsGroup {
        if leaderExit.Some? {
          Finish(BuildResult(leaderExit.value.0, leaderExit.value.1));
        }
        return;
      }
      StartGraceTimer();
    }

    /** One more grace timer; only the last can still be cleared. */
    method StartGraceTimer()
      modifies this`graceTimer, this`graceTimers, this`nextTimer
      ensures graceTimer == Some(old(nextTimer)) && graceTimers == old(graceTimers) + {old(nextTimer)} && nextTimer == old(nextTimer) + 1
    {
      graceTimer := Some(nextTimer);
      graceTimers := graceTimers + {nextTimer};
      nextTimer := nextTimer + 1;
    }

    /** Nothing is captured past the cap or once settled. */
    method OnData(stream: Stream, chunk: string, groupIsThere: bool)
      requires Valid()
      modifies this`stdout, this`stderr, this`output, this`capturedBytes, this`overflow
      modifies this`timedOut, this`limits, this`kills, this`graceTimer, this`graceTimers, this`nextTimer, this`settled, this`timer, this`killsAtSettling, this`couldKill
      ensures Valid() && SameCall()
      ensures old(overflow) || old(settled).Some? ==>
        stdout == old(stdout) && stderr == old(stderr) && output == old(output) && |kills| == |old(kills)| && settled == old(settled)
      ensures !old(overflow) && old(settled).None? ==>
        output == old(output) + [(stream, chunk)] && (overflow <==> old(capturedBytes) + ByteLength(chunk) > maxBuffer)
      ensures limits == old(limits) + if !old(timedOut) && !old(overflow) && overflow then 1 else 0
      ensures timedOut == (old(timedOut) || overflow)
      ensures !old(timedOut) && timedOut && ownsGroup ==>
        overflow && settled == old(settled) && timer == old(timer) && graceTimer == Some(old(nextTimer)) &&
        graceTimers == old(graceTimers) + {old(nextTimer)} && nextTimer == old(nextTimer) + 1
    {
      if overflow || settled.Some? {
        return;
      }
      Capture(stream, chunk);
      if overflow && !timedOut {
        StopForOverflow(groupIsThere);
      }
    }

    /** The output limit stops a call only if nothing has stopped it. */
    method StopForOverflow(groupIsThere: bool)
      requires OutputIsCaptured() && ControlIsSound() && overflow && !timedOut && settled.None?
      modifies this`timedOut, this`limits, this`kills, this`graceTimer, this`graceTimers, this`nextTimer, this`settled, this`timer, this`killsAtSettling, this`couldKill
      ensures Valid() && timedOut && limits == old(limits) + 1 && |old(kills)| <= |kills|
      ensures ownsGroup ==>
        graceTimer == Some(old(nextTimer)) && graceTimers == old(graceTimers) + {old(nextTimer)} && nextTimer == old(nextTimer) + 1 &&
        settled.None? && timer == old(timer)
    {
      StopForLimit(groupIsThere);
    }

    method Capture(stream: Stream, chunk: string)
      requires OutputIsCaptured() && !overflow
      modifies this`stdout, this`stderr, this`output, this`capturedBytes, this`overflow
      ensures OutputIsCaptured() && output == old(output) + [(stream, chunk)]
      ensures overflow <==> old(capturedBytes) + ByteLength(chunk) > maxBuffer
    {
      WrittenOneMore(output, (stream, chunk));
      output := output + [(stream, chunk)];
      match stream {
        case Stdout => stdout := stdout + chunk;
        case Stderr => stderr := stderr + chunk;
      }
      capturedBytes := capturedBytes + ByteLength(chunk);
      overflow := capturedBytes > maxBuffer;
    }

    method OnError(message: string, code: CodeValue)
      requires Valid()
      modifies this`settled, this`timer, this`graceTimers, this`killsAtSettling, this`couldKill, this`erred
      ensures Valid() && SameCall() && settled.Some?
      ensures old(settled).None? ==> erred && killsAtSettling == |kills|
      ensures old(settled).None? ==> !settled.value.ok && settled.value.stdout == Trim(stdout)
    {
      if settled.None? {
        var out, err := Trim(stdout), Trim(if stderr != "" then stderr else message);
        erred := true;
        Finish(Result(false, out, err, code, timedOut, None, timedOut));
      }
    }

    /** A call that killed only the leader settles with it. */
    method OnExit(code: Option<int>, signal: Option<string>)
      requires Valid()
      modifies this`leaderExit, this`settled, this`timer, this`graceTimers, this`killsAtSettling, this`couldKill
      ensures Valid() && SameCall()
      ensures settled.Some? <==> old(settled).Some? || (timedOut && !ownsGroup)
      ensures old(settled).None? && settled.Some? ==> !settled.value.ok
    {
      leaderExit := Some((code, signal));
      if timedOut && !ownsGroup {
        Finish(BuildResult(code, signal));
      }
    }

    /**
     * The pipes are closed. A call that hit no limit is done; one whose group was killed waits until no member can write.
     * `hasWriters` is what the look at the group finds.
     */
    method OnClose(code: Option<int>, signal: Option<string>, now: int, hasWriters: bool, groupIsThere: bool)
      requires Valid() && !closed
      modifies this`closed, this`waiting, this`kills, this`settled, this`timer, this`graceTimers, this`killsAtSettling, this`couldKill
      ensures Valid() && SameCall()
      ensures old(settled).None? && settled.Some? ==>
        settled.value.stdout == Trim(stdout) && settled.value.stderr == Trim(stderr) &&
        (settled.value.ok <==> code == Some(0) && !timedOut && !overflow)
      ensures old(settled).None? && settled.Some? && timedOut && ownsGroup ==> !hasWriters || WasKilled()
      ensures settled.None? ==> timedOut && ownsGroup && waiting.Some?
      ensures !hasWriters ==> settled.Some? && kills == old(kills)
      ensures hasWriters && timedOut && ownsGroup ==>
        if graceMs > 0 then waiting.Some? && waiting.value.1 == now + graceMs && kills == old(kills)
        else waiting.None? && |kills| == |old(kills)| + 1
      ensures old(settled).None? && settled.Some? ==> graceTimers == old(graceTimers) - Cleared() && killsAtSettling == |kills|
    {
      closed := true;
      var result := BuildResult(code, signal);
      if !timedOut || !ownsGroup {
        SettleAtClose(result);
      } else {
        AwaitGroup(result, now, hasWriters, groupIsThere);
      }
    }

    /** A call with no group to wait for is done. */
    method SettleAtClose(result: Result)
      requires Valid() && closed && !(timedOut && ownsGroup) && ResultIsTrue(result)
      modifies this`settled, this`timer, this`graceTimers, this`killsAtSettling, this`couldKill
      ensures Valid() && settled == if old(settled).Some? then old(settled) else Some(result)
      ensures old(settled).Some? ==> killsAtSettling == old(killsAtSettling)
      ensures old(settled).None? ==> graceTimers == old(graceTimers) - Cleared() && killsAtSettling == |kills|
    {
      Finish(result);
    }

    /** The first look at the group, right at the close. */
    method AwaitGroup(result: Result, now: int, hasWriters: bool, groupIsThere: bool)
      requires Valid() && closed && waiting.None? && timedOut && ownsGroup && !result.ok && ResultIsTrue(result)
      requires settled.Some? ==> erred && couldKill
      modifies this`waiting, this`kills, this`settled, this`timer, this`graceTimers, this`killsAtSettling, this`couldKill
      ensures Valid() && |old(kills)| <= |kills|
      ensures old(settled).Some? ==> settled == old(settled) && killsAtSettling == old(killsAtSettling)
      ensures old(settled).None? && settled.Some? ==> settled == Some(result) && (!hasWriters || WasKilled())
      ensures settled.None? ==> waiting.Some?
      ensures !hasWriters ==> settled.Some? && kills == old(kills)
      ensures hasWriters ==>
        if graceMs > 0 then waiting.Some? && waiting.value.1 == now + graceMs && kills == old(kills)
        else waiting.None? && |kills| == |old(kills)| + 1
      ensures old(settled).None? && settled.Some? ==> graceTimers == old(graceTimers) - Cleared() && killsAtSettling == |kills|
    {
      waiting := Some((result, now + graceMs));
      WaitForGroup(now, hasWriters, groupIsThere);
    }

    /** Looks at the group once: no writers, or the time is over and SIGKILL is sent, or it looks again later. */
    method WaitForGroup(now: int, hasWriters: bool, groupIsThere: bool)
      requires Valid() && waiting.Some?
      modifies this`kills, this`settled, this`timer, this`graceTimers, this`killsAtSettling, this`couldKill, this`waiting
      ensures Valid() && SameCall()
      ensures waiting == if hasWriters && now < old(waiting).value.1 then old(waiting) else None
      ensures waiting.Some? ==> settled == old(settled) && kills == old(kills)
      ensures waiting.None? ==> settled.Some?
      ensures waiting.None? && hasWriters ==> |kills| == |old(kills)| + 1
      ensures old(settled).None? && settled.Some? ==> settled == Some(old(waiting).value.0) && (!hasWriters || WasKilled())
      ensures !hasWriters ==> kills == old(kills)
      ensures old(settled).None? && settled.Some? ==> graceTimers == old(graceTimers) - Cleared() && killsAtSettling == |kills|
    {
      if hasWriters && now < waiting.value.1 {
        return;
      }
      if hasWriters {
        SendKill(SIGKILL, groupIsThere);
        assert kills[|kills| - 1].signal == SIGKILL;
      }
      var result := waiting.value.0;
      waiting := None;
      Finish(result);
    }

    method OnTimeout(groupIsThere: bool)
      requires Valid() && timer
      modifies this`timedOut, this`limits, this`kills, this`graceTimer, this`graceTimers, this`nextTimer, this`settled, this`timer, this`killsAtSettling, this`couldKill
      ensures Valid() && SameCall() && timedOut && limits == old(limits) + 1
      ensures ownsGroup ==>
        settled.None? && graceTimer == Some(old(nextTimer)) && graceTimers == old(graceTimers) + {old(nextTimer)}
      ensures settled.Some? ==> !ownsGroup && !settled.value.ok
    {
      timer := false;
      StopForLimit(groupIsThere);
    }

    method OnGraceTimer(t: nat, groupIsThere: bool)
      requires Valid() && t in graceTimers
      modifies this`graceTimers, this`fired, this`kills
      ensures Valid() && SameCall() && WasKilled() && graceTimers == old(graceTimers) - {t}
      ensures |kills| == |old(kills)| + 1
    {
      graceTimers, fired := graceTimers - {t}, fired + {t};
      SendKill(SIGKILL, groupIsThere);
      assert kills[|kills| - 1].signal == SIGKILL;
    }

    /**
     * What can still send a signal to a call that has settled: exactly the first grace timer of one that was stopped twice,
     * if it has not fired, and the wait for the group of one that an error settled.
     */
    lemma CanStillKillExactlyWhen()
      requires Valid() && settled.Some?
      ensures graceTimers != {} <==> ownsGroup && limits == 2 && 0 !in fired
      ensures !erred ==> (CanStillKill() <==> ownsGroup && limits == 2 && 0 !in fired)
      ensures limits == 2 ==> overflow
      ensures |kills| > killsAtSettling ==> couldKill
    {
      if ownsGroup && limits == 2 && 0 !in fired {
        assert IsRunning(0);
      }
    }

    /** Whenever something can still send a signal, a course of events follows that does. */
    method KillsAfterSettling(now: int)
      requires Valid() && settled.Some? && CanStillKill()
      modifies this
      ensures Valid() && settled == old(settled) && |kills| == |old(kills)| + 1
    {
      ghost var timers := graceTimers;
      if t: nat :| t < nextTimer && t in graceTimers {
        OnGraceTimer(t, false);
      } else {
        assert timers == {};
        if waiting.None? {
          OnClose(None, None, now, true, false);
        }
        if waiting.Some? {
          WaitForGroup(waiting.value.1, true, false);
        }
      }
    }

    /**
     * The output limit, then the time limit, then the close: two grace timers were started and settling cleared one, so the
     * other still sends SIGKILL to a group that is gone.
     */
    static method SecondLimitKillsAfterSettling(chunk: string, now: int) returns (call: ClawCmd)
      requires ByteLength(chunk) > 0
      ensures fresh(call) && call.Valid() && call.settled.Some? && !call.erred && call.killsAtSettling < |call.kills|
    {
      var stray: nat;
      call, stray := TwoLimits(chunk);
      call.OnClose(None, Some("SIGTERM"), now, false, true);
      call.OnGraceTimer(stray, false);
    }

    /** An error settles a call that ran out of time; its close still waits for the group, and kills it. */
    static method ErrorLeavesTheWait(now: int) returns (call: ClawCmd)
      ensures fresh(call) && call.Valid() && call.settled.Some? && call.limits == 1 && call.killsAtSettling < |call.kills|
    {
      call := TimedOutThenFailed();
      call.OnClose(None, Some("SIGTERM"), now, true, true);
      if call.waiting.Some? {
        call.WaitForGroup(call.waiting.value.1, true, true);
      }
    }

    static method TimedOutThenFailed() returns (call: ClawCmd)
      ensures fresh(call) && call.Valid() && call.settled.Some? && call.erred && call.limits == 1 && !call.closed
      ensures call.timedOut && call.ownsGroup && call.killsAtSettling == |call.kills|
    {
      call := new ClawCmd("SIGTERM", 5000, 0, true, true);
      call.OnTimeout(true);
      call.OnError("kill failed", NoCode);
    }

    static method TwoLimits(chunk: string) returns (call: ClawCmd, stray: nat)
      requires ByteLength(chunk) > 0
      ensures fresh(call) && call.Valid() && call.settled.None? && !call.closed && !call.erred
      ensures stray in call.graceTimers && call.graceTimer.Some? && stray != call.graceTimer.value
    {
      call := new ClawCmd("SIGTERM", 5000, 0, true, true);
      call.OnData(Stdout, chunk, true);
      stray := call.graceTimer.value;
      call.OnTimeout(true);
    }

    /** Once settled the result is final. */
    twostate predicate SameCall()
      reads this
    {
      (old(settled).Some? ==> settled == old(settled) && killsAtSettling == old(killsAtSettling)) && |old(kills)| <= |kills| &&
      (old(settled).Some? && !old(CanStillKill()) ==> kills == old(kills) && !CanStillKill())
    }

    ghost predicate WasKilled()
      reads this`kills
    {
      exists i :: 0 <= i < |kills| && kills[i].signal == SIGKILL
    }
  }

  // ---- Retrying a rate-limited call ----

  /** How one call ended. `retryAfter`: it said that it was rate-limited, and for how long. */
  datatype Attempt = Attempt(ok: bool, retryAfter: Option<int>)

  const RETRY_STEP: nat := 500

  predicate MayRetry(a: Attempt) {
    !a.ok && a.retryAfter.Some?
  }

  /** The wait after the n-th limited call: what it asked for, or else half a second more each time, up to the cap. */
  function WaitFor(a: Attempt, n: nat, maxBackoff: nat): (wait: int)
    requires a.retryAfter.Some?
    ensures wait <= maxBackoff
  {
    var wanted := if a.retryAfter.value > 0 then a.retryAfter.value else (n + 1) * RETRY_STEP;
    if wanted < maxBackoff then wanted else maxBackoff
  }

  /**
   * `outcomes[i]` is how call i would end. Only rate-limited failures are repeated, at most `maxRetries` times, and no wait
   * is longer than `maxBackoff`.
   */
  method ClawCmdWithRetry(outcomes: seq<Attempt>, maxRetries: nat, maxBackoff: nat) returns (r: Attempt, waits: seq<int>)
    requires |outcomes| == maxRetries + 1
    ensures |waits| <= maxRetries && r == outcomes[|waits|]
    ensures forall i :: 0 <= i < |waits| ==> MayRetry(outcomes[i]) && waits[i] == WaitFor(outcomes[i], i, maxBackoff)
    ensures MayRetry(r) ==> |waits| == maxRetries
  {
    waits := [];
    r := outcomes[0];
    while !r.ok && |waits| < maxRetries
      invariant |waits| <= maxRetries && r == outcomes[|waits|]
      invariant forall i :: 0 <= i < |waits| ==> MayRetry(outcomes[i]) && waits[i] == WaitFor(outcomes[i], i, maxBackoff)
      decreases maxRetries - |waits|
    {
      if r.retryAfter.None? {
        break;
      }
      var wait := if r.retryAfter.value > 0 then r.retryAfter.value else (|waits| + 1) * RETRY_STEP;
      waits := waits + [if wait < maxBackoff then wait else maxBackoff];
      r := outcomes[|waits|];
    }
  }

  function Written(output: seq<(Stream, string)>, stream: Stream): string {
    if output == [] then ""
    else Written(output[..|output| - 1], stream) + if output[|output| - 1].0 == stream then output[|output| - 1].1 else ""
  }

  function ByteCount(output: seq<(Stream, string)>): nat {
    if output == [] then 0 else ByteCount(output[..|output| - 1]) + ByteLength(output[|output| - 1].1)
  }

  lemma WrittenOneMore(output: seq<(Stream, string)>, last: (Stream, string))
    ensures forall stream :: Written(output + [last], stream) == Written(output, stream) + if last.0 == stream then last.1 else ""
    ensures ByteCount(output + [last]) == ByteCount(output) + ByteLength(last.1)
  {
    assert (output + [last])[..|output|] == output;
  }
}
