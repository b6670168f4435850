/**
 * One git invocation of the sync, retried with a doubling delay while another process's lock file is in the way. The
 * clock may advance by any amount inside git, and by at least what was asked for in a sleep.
 */
module LockBackoff {
  import opened Wrappers

  const INITIAL_DELAY: nat := 250
  const MAX_DELAY: nat := 8000
  const TOTAL_DELAY: nat := 60000
  const MOST_INVOCATIONS: nat := 12

  datatype GitResult = Output(text: string) | LockContention(lockFile: string) | TimedOut | TooMuchOutput | OtherError

  datatype RunResult = Done(output: string) | Locked(lockFile: string) | OutOfTime | Unreadable | Failed

  /** A sleep of `ms` begun when the clock showed `start`. */
  datatype Sleep = Sleep(start: nat, ms: nat)

  class Machine {
    var now: nat
    ghost var results: seq<GitResult>
    ghost var sleeps: seq<Sleep>

    constructor ()
      ensures results == [] && sleeps == []
    {
      var start := AnyTime();
      now := start;
      results, sleeps := [], [];
    }

    static method AnyTime() returns (n: nat)
    {
      n := *;
    }

    method Now() returns (t: nat)
      modifies this`now
      ensures old(now) <= t == now
    {
      var passed := AnyTime();
      now := now + passed;
      t := now;
    }

    /** git runs for a while and ends in any way. */
    method Git(timeLimit: Option<nat>) returns (result: GitResult)
      requires timeLimit.Some? ==> timeLimit.value > 0
      modifies this`now, this`results
      ensures old(now) <= now
      ensures results == old(results) + [result]
    {
      var passed := AnyTime();
      now := now + passed;
      result := *;
      results := results + [result];
    }

    method SleepFor(ms: nat)
      modifies this`now, this`sleeps
      ensures old(now) + ms <= now
      ensures sleeps == old(sleeps) + [Sleep(old(now), ms)]
    {
      sleeps := sleeps + [Sleep(now, ms)];
      var late := AnyTime();
      now := now + ms + late;
    }

    /**
     * The retry loop. `deadline` None is a run without one. It comes to an end whatever the lock file does, retries
     * nothing but contention, and never begins a sleep that would end after the minute or the deadline. A run whose clock
     * moves in its sleeps only gives up after exactly the most invocations.
     */
    method Run(deadline: Option<nat>) returns (r: RunResult, ghost begun: nat)
      modifies this
      ensures old(now) <= begun <= now
      ensures old(results) <= results && old(sleeps) <= sleeps && old(now) <= now
      ensures |results| - |old(results)| <= MOST_INVOCATIONS
      ensures TotalSlept(sleeps[|old(sleeps)|..]) <= TOTAL_DELAY
      ensures forall s <- sleeps[|old(sleeps)|..] :: EndsInTime(s, begun, deadline)
      ensures forall i :: |old(results)| <= i < |results| - 1 ==> results[i].LockContention?
      ensures r.OutOfTime? && (results == old(results) || results[|results| - 1].LockContention?) ==>
        deadline.Some? && deadline.value <= now
      ensures !r.OutOfTime? ==> |results| > |old(results)| && r == AnswerTo(results[|results| - 1])
      ensures r.Locked? && deadline.None? ==> old(now) + TOTAL_DELAY - MAX_DELAY < now
      ensures r.Locked? && deadline.None? && now == begun + TotalSlept(sleeps[|old(sleeps)|..]) ==>
        |results| - |old(results)| == MOST_INVOCATIONS
    {
      ghost var before, sleptBefore, n := results, sleeps, 0;
      var delay := INITIAL_DELAY;
      var start := Now();
      begun := start;
      var giveUpAt := if deadline.Some? && deadline.value < start + TOTAL_DELAY then deadline.value else start + TOTAL_DELAY;
      NothingSlept(sleptBefore, begun, now, deadline);
      while true
        invariant old(now) <= begun <= now && delay == Delay(n) && Backoff(n) <= TOTAL_DELAY
        invariant HasSlept(sleptBefore, sleeps, n, begun, now, deadline)
        invariant before <= results && |results| == |before| + n
        invariant forall i :: |before| <= i < |results| ==> results[i].LockContention?
        decreases TOTAL_DELAY - Backoff(n)
      {
        BackoffLimit(n);
        var t := Now();
        if deadline.Some? && deadline.value <= t {
          return OutOfTime, start;
        }
        var result := Git(if deadline.Some? then Some(deadline.value - t) else None);
        if !result.LockContention? {
          return AnswerTo(result), start;
        }
        var failedAt := Now();
        if failedAt + delay > giveUpAt {
          LastInvocation(sleptBefore, sleeps, n, begun, failedAt, deadline, giveUpAt);
          return Locked(result.lockFile), start;
        }
        ghost var slept := sleeps;
        SleepFor(delay);
        SleptOneMore(sleptBefore, slept, n, begun, failedAt, now, deadline);
        delay := if delay * 2 < MAX_DELAY then delay * 2 else MAX_DELAY;
        n := n + 1;
      }
    }
  }

  /** What the caller gets for git's last answer. */
  function AnswerTo(result: GitResult): RunResult {
    match result
    case Output(text) => Done(text)
    case LockContention(lockFile) => Locked(lockFile)
    case TimedOut => OutOfTime
    case TooMuchOutput => Unreadable
    case OtherError => Failed
  }

  /** Since `before` the first `n` delays were slept, and none of them ended too late. */
  ghost predicate HasSlept(before: seq<Sleep>, sleeps: seq<Sleep>, n: nat, begun: nat, now: nat, deadline: Option<nat>) {
    before <= sleeps && |sleeps| == |before| + n && TotalSlept(sleeps[|before|..]) == Backoff(n) && begun + Backoff(n) <= now &&
    forall s <- sleeps[|before|..] :: EndsInTime(s, begun, deadline)
  }

  lemma NothingSlept(sleeps: seq<Sleep>, begun: nat, now: nat, deadline: Option<nat>)
    requires begun <= now
    ensures HasSlept(sleeps, sleeps, 0, begun, now, deadline)
  {
    assert sleeps[|sleeps|..] == [];
  }

  lemma SleptOneMore(before: seq<Sleep>, sleeps: seq<Sleep>, n: nat, begun: nat, at: nat, now: nat, deadline: Option<nat>)
    requires HasSlept(before, sleeps, n, begun, at, deadline) && EndsInTime(Sleep(at, Delay(n)), begun, deadline)
    requires at + Delay(n) <= now
    ensures HasSlept(before, sleeps + [Sleep(at, Delay(n))], n + 1, begun, now, deadline) && Backoff(n + 1) <= TOTAL_DELAY
  {
    var s := Sleep(at, Delay(n));
    var slept := sleeps[|before|..];
    assert (sleeps + [s])[|before|..] == slept + [s];
    assert (slept + [s])[..|slept|] == slept;
  }

  /** Giving up when the clock has moved in the sleeps only. */
  lemma LastInvocation(before: seq<Sleep>, sleeps: seq<Sleep>, n: nat, begun: nat, at: nat, deadline: Option<nat>, giveUpAt: nat)
    requires HasSlept(before, sleeps, n, begun, at, deadline) && Backoff(n) <= TOTAL_DELAY && at + Delay(n) > giveUpAt
    ensures giveUpAt == begun + TOTAL_DELAY && at == begun + TotalSlept(sleeps[|before|..]) ==> n + 1 == MOST_INVOCATIONS
  {
    BackoffLimit(n);
    BackoffLimit(n + 1);
  }

  predicate EndsInTime(s: Sleep, begun: nat, deadline: Option<nat>) {
    s.start + s.ms <= begun + TOTAL_DELAY && (deadline.Some? ==> s.start + s.ms <= deadline.value)
  }

  function TotalSlept(sleeps: seq<Sleep>): nat {
    if sleeps == [] then 0 else TotalSlept(sleeps[..|sleeps| - 1]) + sleeps[|sleeps| - 1].ms
  }

  /** The delay after the n-th contention, and the sum of the first n. */
  function Delay(n: nat): (d: nat)
    ensures INITIAL_DELAY <= d <= MAX_DELAY
  {
    if n == 0 then INITIAL_DELAY
    else if Delay(n - 1) * 2 < MAX_DELAY then Delay(n - 1) * 2
    else MAX_DELAY
  }

  function Backoff(n: nat): nat {
    if n == 0 then 0 else Backoff(n - 1) + Delay(n - 1)
  }

  /** Eleven delays fit the minute and twelve do not, so twelve is the most invocations. */
  lemma {:induction false} BackoffLimit(n: nat)
    ensures Backoff(n) <= TOTAL_DELAY <==> n < MOST_INVOCATIONS
  {
    DelayOf(n);
    if n <= 5 {
      assert Backoff(5) == 7750 by { assert Delay(4) == 4000; }
    } else {
      BackoffFrom5(n);
    }
  }

  lemma {:induction false} DelayOf(n: nat)
    ensures n >= 5 ==> Delay(n) == MAX_DELAY
  {
    if n > 5 {
      DelayOf(n - 1);
    }
  }

  lemma {:induction false} BackoffFrom5(n: nat)
    requires n >= 5
    ensures Backoff(n) == 7750 + (n - 5) * MAX_DELAY
  {
    if n > 5 {
      DelayOf(n - 1);
      BackoffFrom5(n - 1);
    }
  }
}
