/**
 * Logins that start only after the previous one's callbacks have drained, and what goes wrong
 * for one that does not wait.
 */
module LoginSessions {
  import opened Options
  import opened LoginProtocol

  // --------------------------------------------------------------- one session at a time

  /** The manager's field that `CleanUp` will use to clear a pending timer. */
  ghost predicate Held(st: State, id: nat)
    requires id in st.pending
  {
    match st.pending[id]
    case MinLogin(_) => st.timeoutId == Some(id)
    case Overall(_) => st.timeoutTimer == Some(id)
    case Poll(_) => st.pollIntervalId == Some(id)
    case _ => true
  }

  /**
   * Everything that is pending or shown is the newest session's, and a timer is armed only while
   * that one is active.
   */
  ghost predicate Own(st: State) {
    && (forall id | id in st.pending :: st.pending[id].session == st.session)
    && (forall id | id in st.pending :: Held(st, id))
    && (forall id | id in st.pending && st.pending[id].IsTimer() :: st.activeProviderId.Some?)
    && st.windows <= {st.session}
  }

  ghost predicate OwnSettlements(st: State) {
    forall i | 0 <= i < |st.settled| :: st.settled[i].cause == st.settled[i].session
  }

  /** The tasks on the way to the next look at the credentials: the first wait, a poll, or a reply. */
  ghost predicate InChain(st: State, id: nat) {
    id in st.pending && !st.pending[id].Overall?
  }

  ghost predicate AtMostOneInChain(st: State) {
    forall a, b | InChain(st, a) && InChain(st, b) :: a == b
  }

  ghost predicate NoneInChain(st: State) {
    forall id | id in st.pending :: st.pending[id].Overall?
  }

  /** An active login has its window open and its overall timer armed. */
  ghost predicate Guarded(st: State) {
    st.activeProviderId.Some? ==>
      && st.window == Some(st.session) && st.windows == {st.session}
      && st.timeoutTimer.Some? && st.timeoutTimer.value in st.pending && st.pending[st.timeoutTimer.value].Overall?
  }

  ghost predicate Base(st: State) {
    Sound(st) && Own(st) && OwnSettlements(st) && AtMostOneInChain(st) && Guarded(st)
  }

  /** `Base`, and the active login is waiting for exactly one chain task. */
  ghost predicate Tidy(st: State) {
    Base(st) && (st.activeProviderId.Some? ==> !NoneInChain(st))
  }

  lemma FinishTidy(st: State, providerId: Option<string>, kind: StatusKind, outcome: Outcome)
    requires Base(st) && st.activeProviderId.Some?
    requires providerId.None? <==> kind == CancelCalled
    ensures Tidy(Finish(st, providerId, kind, outcome, st.session))
  {
    var after := Finish(st, providerId, kind, outcome, st.session);
    FinishSound(st, providerId, kind, outcome, st.session);
    CleanUpLeavesReplies(st);
    assert forall id :: InChain(after, id) ==> InChain(st, id);
  }

  /** The three ids the manager keeps are enough to disarm every timer. */
  lemma CleanUpLeavesReplies(st: State)
    requires Own(st)
    ensures forall id | id in CleanUp(st).pending ::
              id in st.pending && CleanUp(st).pending[id] == st.pending[id] && !st.pending[id].IsTimer()
  {
    forall id | id in CleanUp(st).pending
      ensures !st.pending[id].IsTimer()
    {
      assert Held(st, id);
    }
  }

  lemma ArmTidy(st: State, task: Task)
    requires Base(st) && NoneInChain(st) && st.activeProviderId.Some?
    requires task.session == st.session && (task.CookieReply? || task.StorageReply?)
    ensures Tidy(Arm(st, task))
  {
    ArmSound(st, task);
    ArmedLast(st, task);
    assert InChain(Arm(st, task), st.nextId);
  }

  lemma ArmedLast(st: State, task: Task)
    requires Own(st) && task.session == st.session
    ensures forall id | id in Arm(st, task).pending && id != st.nextId ::
              id in st.pending && Arm(st, task).pending[id] == st.pending[id] && Held(st, id)
  {
  }

  lemma ArmPollTidy(st: State)
    requires Base(st) && NoneInChain(st) && st.activeProviderId.Some?
    ensures Tidy(ArmPoll(st, st.session))
  {
    ArmSound(st, Poll(st.session));
    ArmedLast(st, Poll(st.session));
    assert InChain(ArmPoll(st, st.session), st.nextId);
  }

  /** When the one chain task runs, none is left until it arms the next. */
  lemma ChainTaskRuns(st: State, id: nat)
    requires Tidy(st) && InChain(st, id)
    ensures Base(st.(pending := st.pending - {id})) && NoneInChain(st.(pending := st.pending - {id}))
  {
    var after := st.(pending := st.pending - {id});
    WithoutSound(st, id);
    forall k | k in after.pending
      ensures after.pending[k].Overall?
    {
      assert InChain(st, id) && (InChain(st, k) || st.pending[k].Overall?);
    }
    forall k | k in after.pending
      ensures Held(after, k)
    {
      assert Held(st, k);
    }
  }

  lemma OpenWindowDrained(st: State, providerId: string)
    requires Drained(st)
    ensures OpenWindow(st, providerId).pending ==
              map[st.nextId := MinLogin(st.session), st.nextId + 1 := Overall(st.session)]
    ensures OpenWindow(st, providerId).timeoutId == Some(st.nextId)
    ensures OpenWindow(st, providerId).timeoutTimer == Some(st.nextId + 1)
  {
  }

  lemma OpenWindowTidy(st: State, providerId: string)
    requires Sound(st) && OwnSettlements(st) && Drained(st) && st.activeProviderId.Some?
    ensures Tidy(OpenWindow(st, providerId))
  {
    OpenWindowSound(st, providerId);
    OpenWindowDrained(st, providerId);
    var after := OpenWindow(st, providerId);
    assert after.pending[st.nextId].MinLogin? && after.pending[st.nextId + 1].Overall?;
  }

  lemma OpenFailsTidy(st: State, providerId: string)
    requires Sound(st) && OwnSettlements(st) && Drained(st) && st.activeProviderId.Some?
    ensures Tidy(Finish(st, Some(providerId), OpenError, Failed(OpenFailed), st.session))
  {
    FinishSound(st, Some(providerId), OpenError, Failed(OpenFailed), st.session);
  }

  lemma BeginTidy(st: State, providerId: string, config: Config, opens: bool)
    requires Tidy(st) && st.activeProviderId.None? && Drained(st)
    ensures Tidy(Begin(st, providerId, config, opens))
  {
    TakeSound(st, providerId, config);
    var taken := Take(st, providerId, config);
    if opens {
      OpenWindowTidy(taken, providerId);
    } else {
      OpenFailsTidy(taken, providerId);
    }
  }

  lemma CheckTidy(st: State, credentials: Credentials)
    requires Base(st) && NoneInChain(st) && st.session in st.closures
    ensures Tidy(CheckCredentials(st, st.session, credentials))
  {
    if !st.isCompleted {
      ArmPollTidy(st);
      FinishTidy(st, Some(st.closures[st.session].providerId), Complete, Success(credentials));
    }
  }

  lemma CookiesTidy(st: State, found: Option<map<string, string>>)
    requires Base(st) && NoneInChain(st) && st.session in st.closures
    ensures Tidy(OnCookies(st, st.session, found))
  {
    if !st.isCompleted {
      ArmPollTidy(st);
      if found.Some? {
        var credentials := st.headerCredentials + FoundCookies(found.value);
        ArmTidy(st, StorageReply(st.session, credentials));
        CheckTidy(st, credentials);
      }
    }
  }

  lemma TimerTidy(st: State, id: nat)
    requires Tidy(st) && id in st.pending && st.pending[id].IsTimer()
    ensures Tidy(OnTimer(st.(pending := st.pending - {id}), st.pending[id]))
  {
    var after := st.(pending := st.pending - {id});
    if st.pending[id].Overall? {
      OverallTidy(st, id);
    } else {
      ChainTaskRuns(st, id);
      ArmPollTidy(after);
      ArmTidy(after, CookieReply(st.session));
    }
  }

  lemma OverallTidy(st: State, id: nat)
    requires Tidy(st) && id in st.pending && st.pending[id].Overall?
    ensures Tidy(OnTimer(st.(pending := st.pending - {id}), st.pending[id]))
  {
    var providerId := Some(st.closures[st.session].providerId);
    var after := Finish(st, providerId, Expired, Failed(LoginTimedOut), st.session);
    FinishTidy(st, providerId, Expired, Failed(LoginTimedOut));
    assert Held(st, id);
    assert st.pending - {id} - Ids(st.timeoutId, st.timeoutTimer, st.pollIntervalId) == after.pending;
  }

  lemma WindowTidy(st: State, s: nat)
    requires Tidy(st) && s in st.windows
    ensures Tidy(OnWindowGone(st.(windows := st.windows - {s}), s))
  {
    if !st.isCompleted {
      var providerId := Some(st.closures[st.session].providerId);
      FinishTidy(st, providerId, Closed, Failed(WindowClosed));
      assert OnWindowGone(st.(windows := st.windows - {s}), s)
          == Finish(st, providerId, Closed, Failed(WindowClosed), st.session).(windows := st.windows - {s});
      DropWindow(Finish(st, providerId, Closed, Failed(WindowClosed), st.session), s);
    } else {
      DropWindow(st, s);
    }
  }

  lemma DropWindow(st: State, s: nat)
    requires Tidy(st) && st.activeProviderId.None?
    ensures Tidy(st.(windows := st.windows - {s}))
  {
    var after := st.(windows := st.windows - {s});
    assert forall id :: InChain(after, id) ==> InChain(st, id);
    assert forall id | id in after.pending :: Held(st, id);
  }

  lemma RequestTidy(st: State, credentials: Credentials)
    requires Tidy(st)
    ensures Tidy(st.(headerCredentials := credentials))
  {
    var after := st.(headerCredentials := credentials);
    assert forall id :: InChain(after, id) ==> InChain(st, id);
    assert forall id | id in after.pending :: Held(st, id);
    assert NoneInChain(after) ==> NoneInChain(st);
  }

  lemma StepTidy(st: State, e: Event)
    requires Tidy(st) && Allowed(OneAtATime, st, e)
    ensures Tidy(Step(st, e))
  {
    match e
    case Start(providerId, config, opens) =>
      if st.activeProviderId.None? {
        BeginTidy(st, providerId, config, opens);
      }
    case Fire(id) => TimerTidy(st, id);
    case Cookies(id, found) =>
      ChainTaskRuns(st, id);
      CookiesTidy(st.(pending := st.pending - {id}), found);
    case Storage(id, values) =>
      ChainTaskRuns(st, id);
      var task := st.pending[id];
      CheckTidy(st.(pending := st.pending - {id}),
                if values.Some? then task.credentials + values.value else task.credentials);
    case WindowGone(s) => WindowTidy(st, s);
    case Request(s, headers) =>
      RequestTidy(st, Capture(st.closures[s].config.headerNames, headers, st.headerCredentials));
    case Cancel =>
      if st.activeProviderId.Some? {
        FinishTidy(st, None, CancelCalled, Failed(LoginCancelled));
      }
  }

  lemma {:induction false} OneAtATimeIsTidy(run: Run, st: State)
    requires Reaches(OneAtATime, run, st)
    ensures Tidy(st)
  {
    if run.Next? {
      var prior :| Reaches(OneAtATime, run.before, prior) && WellFormed(prior) &&
          Allowed(OneAtATime, prior, run.event) && st == Step(prior, run.event);
      OneAtATimeIsTidy(run.before, prior);
      StepTidy(prior, run.event);
    }
  }

  /**
   * When each login starts only after the previous one's callbacks have drained: a session is
   * settled by its own callback; no timer is armed unless a login is active, and then it is
   * that login's; at most one poll or reply is outstanding; and an active login is never
   * stuck, for it has its window, its overall timer and a task that leads to the next look.
   */
  lemma SessionsKeepToThemselves(run: Run, st: State)
    requires Reaches(OneAtATime, run, st)
    ensures forall i | 0 <= i < |st.settled| :: st.settled[i].cause == st.settled[i].session
    ensures forall id | id in st.pending && st.pending[id].IsTimer() ::
              st.activeProviderId.Some? && st.pending[id].session == st.session
    ensures forall a, b | InChain(st, a) && InChain(st, b) :: a == b
    ensures st.activeProviderId.Some? ==>
              && st.windows == {st.session}
              && (exists id :: InChain(st, id))
              && (exists id :: id in st.pending && st.pending[id] == Overall(st.session))
  {
    OneAtATimeIsTidy(run, st);
    if st.activeProviderId.Some? {
      var id :| id in st.pending && !st.pending[id].Overall?;
      assert InChain(st, id);
      assert st.pending[st.timeoutTimer.value] == Overall(st.session);
    }
  }

  // ----------------------------------------------------------- starting without waiting

  /** A session was ended by another one's callback, or a timer is armed for a session that is over. */
  ghost predicate Misbehaves(st: State) {
    || (exists i :: 0 <= i < |st.settled| && st.settled[i].cause != st.settled[i].session)
    || (exists id :: && id in st.pending && st.pending[id].IsTimer()
                     && !(st.activeProviderId.Some? && st.pending[id].session == st.session))
  }

  ghost predicate NextIsClean(st: State)
    requires WellFormed(st)
  {
    forall e | Enabled(st, e) :: !Misbehaves(Step(st, e))
  }

  /** The event by which a callback left over from an earlier session reaches into the new one. */
  lemma LeftoverReachesIn(st: State, providerId: string, config: Config) returns (e: Event)
    requires Tidy(st) && st.activeProviderId.None? && !Drained(st)
    ensures var started := Begin(st, providerId, config, true);
      WellFormed(started) && Enabled(started, e) && Misbehaves(Step(started, e))
  {
    BeginSound(st, providerId, config, true);
    var started := Begin(st, providerId, config, true);
    if st.windows != {} {
      e := WindowGone(st.session);
      var after := Step(started, e);
      assert after.settled[|st.settled|] == Settlement(st.session + 1, Failed(WindowClosed), st.session);
    } else {
      var id :| id in st.pending;
      assert started.pending[id] == st.pending[id] && started.pending[id].session == st.session;
      e := if st.pending[id].CookieReply? then Cookies(id, None) else Storage(id, None);
      RepliesReachIn(started, id, e);
    }
  }

  lemma RepliesReachIn(st: State, id: nat, e: Event)
    requires WellFormed(st) && Enabled(st, e) && (e == Cookies(id, None) || e == Storage(id, None))
    requires !st.isCompleted && st.pending[id].session != st.session
    ensures Misbehaves(Step(st, e))
  {
    var after, s := Step(st, e), st.pending[id].session;
    if |after.settled| > |st.settled| {
      assert after.settled[|st.settled|].session == st.session && after.settled[|st.settled|].cause == s;
    } else {
      assert after.pending[st.nextId] == Poll(s);
    }
  }

  /**
   * Waiting is exactly what it takes: a login that starts is safe from the earlier session
   * if and only if every callback of that session has drained.
   */
  lemma StartIsSafeIff(st: State, providerId: string, config: Config)
    requires Tidy(st) && st.activeProviderId.None?
    ensures WellFormed(Begin(st, providerId, config, true))
    ensures Drained(st) <==> NextIsClean(Begin(st, providerId, config, true))
  {
    BeginSound(st, providerId, config, true);
    var started := Begin(st, providerId, config, true);
    if Drained(st) {
      BeginTidy(st, providerId, config, true);
      forall e | Enabled(started, e)
        ensures !Misbehaves(Step(started, e))
      {
        StepTidy(started, e);
      }
    } else {
      var e := LeftoverReachesIn(st, providerId, config);
    }
  }

  lemma StartOutcome(st: State, providerId: string, config: Config)
    requires st.activeProviderId.None?
    ensures var after := Begin(st, providerId, config, true);
      && after.activeProviderId.Some? && after.session == st.session + 1
      && after.settled == st.settled && after.windows == st.windows + {st.session + 1}
  {
  }

  lemma CancelOutcome(st: State)
    requires st.activeProviderId.Some? && st.resolvePromise == st.session > 0
    ensures OnCancel(st).activeProviderId.None? && OnCancel(st).session == st.session &&
              OnCancel(st).windows == st.windows
    ensures OnCancel(st).settled == st.settled + [Settlement(st.session, Failed(LoginCancelled), st.session)]
  {
  }

  lemma CloseOutcome(st: State, s: nat)
    requires s in st.closures && !st.isCompleted && st.resolvePromise == st.session > 0
    ensures OnWindowGone(st, s).activeProviderId.None? && OnWindowGone(st, s).windows == st.windows
    ensures OnWindowGone(st, s).settled == st.settled + [Settlement(st.session, Failed(WindowClosed), s)]
  {
  }

  lemma ThenStart(run: Run, st: State, providerId: string, config: Config) returns (next: Run, after: State)
    requires Reaches(Overlapping, run, st)
    ensures Reaches(Overlapping, next, after) && Trace(next) == Trace(run) + [Start(providerId, config, true)]
    ensures st.activeProviderId.None? ==>
              && after.activeProviderId.Some? && after.session == st.session + 1
              && after.settled == st.settled && after.windows == st.windows + {after.session}
  {
    next := Next(run, Start(providerId, config, true));
    after := Extend(Overlapping, run, st, Start(providerId, config, true));
    if st.activeProviderId.None? {
      StartOutcome(st, providerId, config);
    }
  }

  lemma ThenCancel(run: Run, st: State) returns (next: Run, after: State)
    requires Reaches(Overlapping, run, st)
    ensures Reaches(Overlapping, next, after) && Trace(next) == Trace(run) + [Cancel]
    ensures st.activeProviderId.Some? ==>
              && after.activeProviderId.None? && after.session == st.session && after.windows == st.windows
              && after.settled == st.settled + [Settlement(st.session, Failed(LoginCancelled), st.session)]
  {
    ReachableIsSound(Overlapping, run, st);
    next := Next(run, Cancel);
    after := Extend(Overlapping, run, st, Cancel);
    if st.activeProviderId.Some? {
      CancelOutcome(st);
    }
  }

  lemma ThenClose(run: Run, st: State, s: nat) returns (next: Run, after: State)
    requires Reaches(Overlapping, run, st) && st.activeProviderId.Some? && s in st.windows
    ensures Reaches(Overlapping, next, after) && Trace(next) == Trace(run) + [WindowGone(s)]
    ensures after.activeProviderId.None? && after.windows == st.windows - {s}
    ensures after.settled == st.settled + [Settlement(st.session, Failed(WindowClosed), s)]
  {
    ReachableIsSound(Overlapping, run, st);
    next := Next(run, WindowGone(s));
    after := Extend(Overlapping, run, st, WindowGone(s));
    CloseOutcome(st.(windows := st.windows - {s}), s);
  }

  lemma StartedAndCancelled(providerId: string, config: Config) returns (run: Run, st: State)
    ensures Reaches(Overlapping, run, st) && Trace(run) == [Start(providerId, config, true), Cancel]
    ensures st.activeProviderId.None? && st.session == 1 && st.windows == {1}
    ensures st.settled == [Settlement(1, Failed(LoginCancelled), 1)]
  {
    run, st := ThenStart(Begun, INITIAL, providerId, config);
    run, st := ThenCancel(run, st);
  }

  lemma StartedAndClosed(before: Run, prior: State, providerId: string, config: Config, s: nat)
    returns (run: Run, st: State)
    requires Reaches(Overlapping, before, prior) && prior.activeProviderId.None? && s in prior.windows
    ensures Reaches(Overlapping, run, st) &&
              Trace(run) == Trace(before) + [Start(providerId, config, true), WindowGone(s)]
    ensures st.activeProviderId.None? && st.windows == prior.windows + {prior.session + 1} - {s}
    ensures st.settled == prior.settled + [Settlement(prior.session + 1, Failed(WindowClosed), s)]
  {
    run, st := ThenStart(before, prior, providerId, config);
    run, st := ThenClose(run, st, s);
  }

  /**
   * A run the event loop allows: the first login is cancelled, a second starts, and only then
   * does the first window report that it closed.
   */
  lemma LateCloseEndsNextLogin(first: string, second: string, config: Config) returns (run: Run, st: State)
    ensures Reaches(Overlapping, run, st)
    ensures Trace(run) == [Start(first, config, true), Cancel, Start(second, config, true), WindowGone(1)]
    ensures st.settled == [Settlement(1, Failed(LoginCancelled), 1), Settlement(2, Failed(WindowClosed), 1)]
    ensures 2 in st.windows && st.activeProviderId.None?
  {
    run, st := StartedAndCancelled(first, config);
    run, st := StartedAndClosed(run, st, second, config, 1);
  }
}
