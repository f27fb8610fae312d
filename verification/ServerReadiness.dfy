/**
 * Polling a server until it answers or a time budget runs out. Time is counted in whole
 * milliseconds and passes only inside attempts and sleeps; what each probe does is arbitrary.
 */
module ServerReadiness {

  /**
   * What the fetch of one attempt would do by itself: settle after a while, or never. A rejection
   * settles without an answer.
   */
  datatype Probe = Settles(delay: nat, ok: bool) | Hangs

  /**
   * How the loop sleeps: with the platform's timer, as by default, or with a function passed in
   * that takes exactly as long as asked.
   */
  datatype Sleep = Timer | Injected

  datatype Config = Config(timeoutMs: int, requestTimeoutMs: int, pollIntervalMs: int, sleep: Sleep)

  const LONGEST_TIMER_MS := 2147483647

  function Min(a: int, b: int): int {
    if a <= b then a else b
  }

  function Max(a: int, b: int): int {
    if a >= b then a else b
  }

  /** How long `setTimeout` waits: a delay it cannot take counts as one millisecond. */
  function TimerDelay(delayMs: int): (d: nat)
    ensures d >= 1
  {
    if 1 <= delayMs <= LONGEST_TIMER_MS then delayMs else 1
  }

  function SleepTime(c: Config, delayMs: int): nat {
    if c.sleep.Timer? then TimerDelay(delayMs) else Max(0, delayMs)
  }

  /** The loop after some attempts: still polling, or over; each with the time spent so far. */
  datatype State = Polling(elapsed: nat) | Ready(elapsed: nat) | TimedOut(elapsed: nat)

  /** How long an attempt may take: the request timeout, cut to what is left, but at least one millisecond. */
  function AttemptLimit(c: Config, elapsed: nat): (limit: nat)
    requires elapsed < c.timeoutMs
    ensures 1 <= limit <= c.timeoutMs - elapsed
  {
    TimerDelay(Max(1, Min(c.requestTimeoutMs, c.timeoutMs - elapsed)))
  }

  predicate InTime(c: Config, elapsed: nat, p: Probe)
    requires elapsed < c.timeoutMs
  {
    p.Settles? && p.delay <= AttemptLimit(c, elapsed)
  }

  /** The time one attempt takes. */
  function Spent(c: Config, elapsed: nat, p: Probe): (d: nat)
    requires elapsed < c.timeoutMs
    ensures d <= c.timeoutMs - elapsed
  {
    if InTime(c, elapsed, p) then p.delay else AttemptLimit(c, elapsed)
  }

  /** The loop after a sleep that follows an attempt without an answer. */
  function Woken(c: Config, after: nat): State {
    if c.timeoutMs <= after then TimedOut(after)
    else
      Elapsed(c, after + SleepTime(c, Min(c.pollIntervalMs, c.timeoutMs - after)))
  }

  /** One attempt and the sleep after it. */
  function Attempt(c: Config, elapsed: nat, p: Probe): State
    requires elapsed < c.timeoutMs
  {
    var after := elapsed + Spent(c, elapsed, p);
    if InTime(c, elapsed, p) && p.ok then Ready(after) else Woken(c, after)
  }

  /** The loop, not yet answered, with this much time spent. */
  function Elapsed(c: Config, elapsed: nat): State {
    if elapsed < c.timeoutMs then Polling(elapsed) else TimedOut(elapsed)
  }

  lemma WokenAdvances(c: Config, after: nat)
    ensures
      var slept := if after < c.timeoutMs then SleepTime(c, Min(c.pollIntervalMs, c.timeoutMs - after)) else 0;
      Woken(c, after) == Elapsed(c, after + slept)
    ensures after < c.timeoutMs && (c.pollIntervalMs >= 1 || c.sleep.Timer?) ==>
              SleepTime(c, Min(c.pollIntervalMs, c.timeoutMs - after)) >= 1
  {
  }

  /** The state after at most `n` attempts. */
  function After(c: Config, probes: nat -> Probe, n: nat): (s: State)
    ensures s.Polling? ==> s.elapsed < c.timeoutMs
  {
    if n == 0 then Elapsed(c, 0)
    else
      var s := After(c, probes, n - 1);
      if s.Polling? then Attempt(c, s.elapsed, probes(n - 1)) else s
  }

  // -------------------------------------------------------------------------- laws

  /** However the probes behave, the time spent never exceeds the budget; a timeout spends exactly all of it. */
  lemma {:induction false} BudgetIsKept(c: Config, probes: nat -> Probe, n: nat)
    ensures
      var s := After(c, probes, n);
      s.elapsed <= Max(c.timeoutMs, 0) && (s.TimedOut? ==> s.elapsed == Max(c.timeoutMs, 0))
  {
    if n > 0 {
      BudgetIsKept(c, probes, n - 1);
    }
  }

  /** Attempt `k` is made and gets an ok answer in time. */
  ghost predicate Answered(c: Config, probes: nat -> Probe, k: nat) {
    var s := After(c, probes, k);
    s.Polling? && InTime(c, s.elapsed, probes(k)) && probes(k).ok
  }

  /** One of the first `n` attempts gets an ok answer in time. */
  ghost predicate AnsweredWithin(c: Config, probes: nat -> Probe, n: nat) {
    exists k: nat :: k < n && Answered(c, probes, k)
  }

  /** The loop is ready after `n` attempts exactly when one of them got an ok answer in time. */
  lemma {:induction false} ReadyIffAnswered(c: Config, probes: nat -> Probe, n: nat)
    ensures After(c, probes, n).Ready? <==> AnsweredWithin(c, probes, n)
  {
    if n > 0 {
      ReadyIffAnswered(c, probes, n - 1);
      if After(c, probes, n).Ready? && !After(c, probes, n - 1).Ready? {
        assert Answered(c, probes, n - 1);
      }
    }
  }

  /** The sleep for a whole poll interval. */
  function Spacing(c: Config): nat {
    SleepTime(c, c.pollIntervalMs)
  }

  /** While it is still polling, every attempt so far was followed by the sleep for a whole poll interval. */
  lemma {:induction false} AttemptsAreSpaced(c: Config, probes: nat -> Probe, n: nat)
    requires After(c, probes, n).Polling?
    ensures n * Spacing(c) <= After(c, probes, n).elapsed < c.timeoutMs
  {
    if n > 0 {
      AttemptsAreSpaced(c, probes, n - 1);
      var s := After(c, probes, n - 1);
      assert After(c, probes, n).elapsed >= s.elapsed + Spacing(c);
      assert n * Spacing(c) == (n - 1) * Spacing(c) + Spacing(c);
    }
  }

  /** A server that rejects every attempt at once. */
  function Refusing(n: nat): Probe {
    Settles(0, false)
  }

  /** With a sleep that takes no time, such a server is polled for ever at the same instant. */
  lemma {:induction false} RefusedForever(c: Config, n: nat)
    requires 0 < c.timeoutMs && Spacing(c) == 0
    ensures After(c, Refusing, n) == Polling(0)
  {
    if n > 0 {
      RefusedForever(c, n - 1);
    }
  }

  ghost predicate Ends(c: Config, probes: nat -> Probe) {
    exists n: nat :: !After(c, probes, n).Polling?
  }

  lemma EndsInBudget(c: Config, probes: nat -> Probe)
    requires c.timeoutMs > 0 && Spacing(c) >= 1
    ensures !After(c, probes, c.timeoutMs).Polling?
  {
    assert c.timeoutMs * Spacing(c) >= c.timeoutMs * 1;
    if After(c, probes, c.timeoutMs).Polling? {
      AttemptsAreSpaced(c, probes, c.timeoutMs);
    }
  }

  /**
   * With the platform's timer the loop ends for every server and every configuration, after at
   * most one attempt a millisecond.
   */
  lemma TimerLoopEnds(c: Config, probes: nat -> Probe)
    requires c.sleep.Timer?
    ensures !After(c, probes, Max(c.timeoutMs, 0)).Polling?
  {
    if c.timeoutMs > 0 {
      EndsInBudget(c, probes);
    }
  }

  /**
   * The loop ends for every behaviour of the server exactly when there is no time budget at
   * all, or the poll interval is positive, or the sleep is the platform's timer.
   */
  lemma EndsIff(c: Config)
    ensures (forall probes: nat -> Probe :: Ends(c, probes)) <==>
              c.timeoutMs <= 0 || c.pollIntervalMs >= 1 || c.sleep.Timer?
  {
    if c.timeoutMs <= 0 {
      forall probes: nat -> Probe ensures Ends(c, probes) {
        assert !After(c, probes, 0).Polling?;
      }
    } else if Spacing(c) >= 1 {
      forall probes: nat -> Probe ensures Ends(c, probes) {
        EndsInBudget(c, probes);
      }
    } else {
      forall n: nat ensures After(c, Refusing, n).Polling? {
        RefusedForever(c, n);
      }
      assert !Ends(c, Refusing);
    }
  }

  // ------------------------------------------------------------------- one round, in numbers

  /** `d` is what a timer set to `wanted` milliseconds takes. */
  predicate Takes(wanted: int, d: int) {
    if 1 <= wanted <= 2147483647 then d == wanted else d == 1
  }

  /**
   * The longest an attempt may take is the request timeout, but not more than is left, and not
   * less than a millisecond.
   */
  predicate IsLimit(c: Config, left: int, limit: int) {
    && (c.requestTimeoutMs < 1 ==> limit == 1)
    && (1 <= c.requestTimeoutMs <= left ==> Takes(c.requestTimeoutMs, limit))
    && (c.requestTimeoutMs >= 1 && c.requestTimeoutMs > left ==> Takes(left, limit))
  }

  /**
   * The pause after an attempt is the poll interval, but not more than is left; only a timer
   * makes it a millisecond at least.
   */
  predicate IsPause(c: Config, left: int, pause: int) {
    var wanted := if c.pollIntervalMs <= left then c.pollIntervalMs else left;
    if c.sleep.Timer? then Takes(wanted, pause) else pause == if wanted >= 0 then wanted else 0
  }

  /**
   * One round: an answer within the limit ends the attempt when it comes, and the whole loop when
   * it is ok; otherwise the attempt takes the limit, and the next one follows after the pause.
   */
  lemma RoundIs(c: Config, elapsed: nat, p: Probe, limit: int, pause: nat)
    requires elapsed < c.timeoutMs && IsLimit(c, c.timeoutMs - elapsed, limit)
    ensures p.Settles? && p.delay <= limit && p.ok ==> Attempt(c, elapsed, p) == Ready(elapsed + p.delay)
    ensures
      var done := elapsed + (if p.Settles? && p.delay <= limit then p.delay else limit);
      !(p.Settles? && p.delay <= limit && p.ok) ==>
        && (done >= c.timeoutMs ==> Attempt(c, elapsed, p) == TimedOut(done))
        && (done < c.timeoutMs && IsPause(c, c.timeoutMs - done, pause) ==>
              Attempt(c, elapsed, p) ==
                if done + pause < c.timeoutMs then Polling(done + pause) else TimedOut(done + pause))
  {
    assert AttemptLimit(c, elapsed) == limit;
  }

  // ---------------------------------------------------------------------- the loop

  /** One round of the loop: race the fetch against the attempt's timer, and sleep unless it answered or time is up. */
  method MakeAttempt(c: Config, probes: nat -> Probe, n: nat, startedAt: int, before: int)
    returns (answered: bool, now: int)
    requires 0 <= before - startedAt < c.timeoutMs && After(c, probes, n) == Polling(before - startedAt)
    ensures before <= now
    ensures After(c, probes, n + 1) == if answered then Ready(now - startedAt) else Elapsed(c, now - startedAt)
    ensures (c.pollIntervalMs >= 1 || c.sleep.Timer?) && !answered ==> before < now
  {
    answered, now := false, before;
    AfterOneMore(c, probes, n, before - startedAt);
    var probe := probes(n);
    var remaining := c.timeoutMs - (now - startedAt);
    var attemptTimeout := TimerDelay(Max(1, Min(c.requestTimeoutMs, remaining)));
    if probe.Settles? && probe.delay <= attemptTimeout {
      now := now + probe.delay;
      if probe.ok {
        return true, now;
      }
    } else {
      now := now + attemptTimeout;
    }
    var pollRemaining := c.timeoutMs - (now - startedAt);
    WokenAdvances(c, now - startedAt);
    if pollRemaining > 0 {
      now := now + SleepTime(c, Min(c.pollIntervalMs, pollRemaining));
    }
  }

  /**
   * The loop, over a clock that shows `startedAt` at the start: it ends within the budget, and
   * is ready exactly when an attempt was answered in time. It asks nothing of its caller as long
   * as it sleeps with the platform's timer.
   */
  method WaitForServer(c: Config, probes: nat -> Probe, startedAt: int) returns (ready: bool, now: int, attempts: nat)
    requires c.timeoutMs <= 0 || c.pollIntervalMs >= 1 || c.sleep.Timer?
    ensures startedAt <= now <= startedAt + Max(c.timeoutMs, 0)
    ensures After(c, probes, attempts) == if ready then Ready(now - startedAt) else TimedOut(now - startedAt)
    ensures ready <==> AnsweredWithin(c, probes, attempts)
  {
    now, attempts := startedAt, 0;
    ready := false;
    while now - startedAt < c.timeoutMs
      invariant startedAt <= now
      invariant After(c, probes, attempts) == Elapsed(c, now - startedAt)
      decreases c.timeoutMs - (now - startedAt)
    {
      var answered, later := MakeAttempt(c, probes, attempts, startedAt, now);
      attempts, now := attempts + 1, later;
      if answered {
        ready := true;
        break;
      }
    }
    BudgetIsKept(c, probes, attempts);
    ReadyIffAnswered(c, probes, attempts);
  }

  lemma AfterOneMore(c: Config, probes: nat -> Probe, n: nat, elapsed: nat)
    requires elapsed < c.timeoutMs && After(c, probes, n) == Polling(elapsed)
    ensures After(c, probes, n + 1) == Attempt(c, elapsed, probes(n))
  {
  }
}
