/**
 * What each event does to a login, field by field: which tasks it leaves, what it settles and
 * with what, and which statuses it sends.
 */
module LoginEvents {
  import opened Options
  import opened LoginProtocol
  import opened LoginCredentials
  import Text

  // ------------------------------------------------------------------ two outcomes

  /** The login ends: its promise is settled, the listeners hear of it, and what it held is released. */
  ghost predicate Ends(st: State, after: State, outcome: Outcome, cause: nat, status: Status) {
    && after.settled == st.settled + [Settlement(st.session, outcome, cause)]
    && after.statuses == st.statuses + [status]
    && after.isCompleted && after.activeProviderId.None? && after.window.None? && after.headerCredentials == map[]
  }

  /** The login goes on: in place of the task that ran there is one new task, and nothing is settled or sent. */
  ghost predicate GoesOn(st: State, after: State, ran: nat, task: Task) {
    && after.pending == (st.pending - {ran})[st.nextId := task] && after.nextId == st.nextId + 1
    && after.settled == st.settled && after.statuses == st.statuses
    && !after.isCompleted && after.activeProviderId == st.activeProviderId
    && after.headerCredentials == st.headerCredentials
    && after.window == st.window && after.windows == st.windows
    && (task.Poll? ==> after.pollIntervalId == Some(st.nextId))
  }

  /** These are the captured headers and the cookies found, a cookie winning over a header of its name. */
  ghost predicate Merges(st: State, found: map<string, string>, credentials: Credentials) {
    && credentials.Keys == st.headerCredentials.Keys + found.Keys
    && (forall k | k in found :: credentials[k] == Some(found[k]))
    && (forall k | k in st.headerCredentials && k !in found :: credentials[k] == st.headerCredentials[k])
  }

  lemma MergedIs(st: State, found: map<string, string>, credentials: Credentials)
    requires Merges(st, found, credentials)
    ensures credentials == st.headerCredentials + FoundCookies(found)
  {
  }

  /** All names a login asks for are among these, and there is at least one. */
  predicate Enough(config: Config, names: set<string>) {
    && names != {}
    && (forall k | k in config.cookieNames :: k in names) && (forall k | k in config.storageKeys :: k in names)
    && (forall k | k in config.headerNames :: k in names)
  }

  lemma EnoughIff(config: Config, credentials: Credentials)
    ensures Enough(config, credentials.Keys) <==> Required(config) <= credentials.Keys && credentials != map[]
  {
    assert credentials == map[] <==> credentials.Keys == {};
    if Enough(config, credentials.Keys) {
      assert forall k | k in Required(config) :: k in credentials.Keys;
    }
    if Required(config) <= credentials.Keys {
      forall k | k in config.cookieNames || k in config.storageKeys || k in config.headerNames
        ensures k in credentials.Keys
      {
        assert k in Required(config);
      }
    }
  }

  lemma Checked(st: State, ran: nat, s: nat, credentials: Credentials)
    requires Sound(st) && st.activeProviderId.Some? && s in st.closures
    ensures
      var (config, status) := (st.closures[s].config, Status(Some(st.closures[s].providerId), StatusKind.Complete));
      var after := CheckCredentials(st.(pending := st.pending - {ran}), s, credentials);
      if Enough(config, credentials.Keys) then Ends(st, after, Success(credentials), s, status)
      else GoesOn(st, after, ran, Poll(s))
  {
    EnoughIff(st.closures[s].config, credentials);
  }

  // ------------------------------------------------------------------------ replies

  /**
   * Cookies arrive. When they cannot be read, another poll is armed. When the login has storage
   * keys and its window is open, the page is asked, with headers and cookies merged. Otherwise
   * the login succeeds with the merged values if all its names are there, and else polls again.
   */
  lemma CookiesDo(sessions: Sessions, run: Run, st: State, id: nat, found: Option<map<string, string>>)
    requires Reaches(sessions, run, st) && st.activeProviderId.Some? && Enabled(st, Cookies(id, found))
    ensures WellFormed(st)
    ensures
      var (s, after) := (st.pending[id].session, Step(st, Cookies(id, found)));
      && (found.None? ==> GoesOn(st, after, id, Poll(s)))
      && (found.Some? ==> forall credentials | Merges(st, found.value, credentials) ::
            var closure := st.closures[s];
            if closure.config.storageKeys != [] && st.window.Some? && st.window.value in st.windows
            then GoesOn(st, after, id, StorageReply(s, credentials))
            else if Enough(closure.config, st.headerCredentials.Keys + found.value.Keys)
            then Ends(st, after, Success(credentials), s, Status(Some(closure.providerId), StatusKind.Complete))
            else GoesOn(st, after, id, Poll(s)))
  {
    ReachableIsSound(sessions, run, st);
    if found.Some? {
      forall credentials | Merges(st, found.value, credentials)
        ensures credentials == st.headerCredentials + FoundCookies(found.value)
      {
        MergedIs(st, found.value, credentials);
      }
      Checked(st, id, st.pending[id].session, st.headerCredentials + FoundCookies(found.value));
    }
  }

  /** The page's values win over what was collected before. */
  ghost predicate Overrides(collected: Credentials, values: Option<Credentials>, credentials: Credentials) {
    var extra := if values.Some? then values.value else map[];
    && credentials.Keys == collected.Keys + extra.Keys
    && (forall k | k in extra :: credentials[k] == extra[k])
    && (forall k | k in collected && k !in extra :: credentials[k] == collected[k])
  }

  lemma OverriddenIs(collected: Credentials, values: Option<Credentials>, credentials: Credentials)
    requires Overrides(collected, values, credentials)
    ensures credentials == if values.Some? then collected + values.value else collected
  {
  }

  /**
   * The page answers, or fails to: the login succeeds with everything collected if all its names
   * are there, and else polls again.
   */
  lemma StorageDoes(sessions: Sessions, run: Run, st: State, id: nat, values: Option<Credentials>)
    requires Reaches(sessions, run, st) && st.activeProviderId.Some? && Enabled(st, Storage(id, values))
    ensures WellFormed(st)
    ensures
      var (task, after) := (st.pending[id], Step(st, Storage(id, values)));
      forall credentials | Overrides(task.credentials, values, credentials) ::
        var closure := st.closures[task.session];
        if Enough(closure.config, credentials.Keys)
        then Ends(st, after, Success(credentials), task.session, Status(Some(closure.providerId), StatusKind.Complete))
        else GoesOn(st, after, id, Poll(task.session))
  {
    ReachableIsSound(sessions, run, st);
    var task := st.pending[id];
    var all := if values.Some? then task.credentials + values.value else task.credentials;
    forall credentials | Overrides(task.credentials, values, credentials) ensures credentials == all {
      OverriddenIs(task.credentials, values, credentials);
    }
    Checked(st, id, task.session, all);
  }

  // ------------------------------------------------------------- timers, window, caller

  /** The first wait leads to a poll, a poll to a reply, and the overall timer ends the login. */
  lemma TimersDo(sessions: Sessions, run: Run, st: State, id: nat)
    requires Reaches(sessions, run, st) && st.activeProviderId.Some? && Enabled(st, Fire(id))
    ensures WellFormed(st)
    ensures
      var (task, after) := (st.pending[id], Step(st, Fire(id)));
      match task
      case MinLogin(s) => GoesOn(st, after, id, Poll(s))
      case Poll(s) => GoesOn(st, after, id, CookieReply(s))
      case Overall(s) =>
        Ends(st, after, Failed(LoginTimedOut), s, Status(Some(st.closures[s].providerId), StatusKind.Expired))
      case _ => true
  {
    ReachableIsSound(sessions, run, st);
  }

  lemma ClosedEnds(st: State, s: nat)
    requires Sound(st) && st.activeProviderId.Some? && s in st.closures
    ensures Ends(st, OnWindowGone(st.(windows := st.windows - {s}), s), Failed(WindowClosed), s,
                 Status(Some(st.closures[s].providerId), StatusKind.Closed))
    ensures OnWindowGone(st.(windows := st.windows - {s}), s).windows == st.windows - {s}
  {
  }

  /** A window that closes ends the active login. */
  lemma ClosingDoes(sessions: Sessions, run: Run, st: State, s: nat)
    requires Reaches(sessions, run, st) && st.activeProviderId.Some? && Enabled(st, WindowGone(s))
    ensures WellFormed(st)
    ensures
      var after := Step(st, WindowGone(s));
      && after.windows == st.windows - {s}
      && Ends(st, after, Failed(WindowClosed), s, Status(Some(st.closures[s].providerId), StatusKind.Closed))
  {
    ReachableIsSound(sessions, run, st);
    ClosedEnds(st, s);
  }

  lemma CancelledEnds(st: State)
    requires Sound(st) && st.activeProviderId.Some?
    ensures Ends(st, OnCancel(st), Failed(LoginCancelled), st.session, Status(None, StatusKind.CancelCalled))
  {
  }

  /** Cancelling ends it too, with a status that names no provider. */
  lemma CancellingDoes(sessions: Sessions, run: Run, st: State)
    requires Reaches(sessions, run, st) && st.activeProviderId.Some?
    ensures WellFormed(st)
    ensures Ends(st, Step(st, Cancel), Failed(LoginCancelled), st.session, Status(None, StatusKind.CancelCalled))
  {
    ReachableIsSound(sessions, run, st);
    CancelledEnds(st);
  }

  /** With no login active, replies, timers and closing windows do nothing but be over, and cancelling does nothing. */
  lemma IdleDoesNothing(sessions: Sessions, run: Run, st: State, e: Event)
    requires Reaches(sessions, run, st) && st.activeProviderId.None? && Enabled(st, e)
    ensures WellFormed(st)
    ensures e.Fire? || e.Cookies? || e.Storage? ==>
              Step(st, e) == st.(pending := st.pending - {e.id})
    ensures e.WindowGone? ==> Step(st, e) == st.(windows := st.windows - {e.session})
    ensures e.Cancel? ==> Step(st, e) == st
  {
    ReachableIsSound(sessions, run, st);
  }

  /** The new session is the manager's, with its own promise. */
  ghost predicate Takes(st: State, after: State, providerId: string, config: Config) {
    && after.session == st.session + 1 && after.resolvePromise == st.session + 1
    && after.closures == st.closures[st.session + 1 := Closure(providerId, config)]
  }

  /** It shows a window of its own, arms the first wait and the overall timer, and sends two statuses. */
  ghost predicate Opens(st: State, after: State, providerId: string) {
    var s := st.session + 1;
    && after.activeProviderId == Some(providerId) && !after.isCompleted && after.settled == st.settled
    && after.window == Some(s) && after.windows == st.windows + {s}
    && after.pending == st.pending[st.nextId := MinLogin(s)][st.nextId + 1 := Overall(s)]
    && after.timeoutId == Some(st.nextId) && after.timeoutTimer == Some(st.nextId + 1)
    && after.statuses == st.statuses + [Status(Some(providerId), Starting)] + [Status(Some(providerId), Loading)]
  }

  /** It ends at once, settled as failed, after two statuses. */
  ghost predicate FailsToOpen(st: State, after: State, providerId: string) {
    && after.activeProviderId.None? && after.isCompleted && after.windows == st.windows
    && after.settled == st.settled + [Settlement(st.session + 1, Failed(OpenFailed), st.session + 1)]
    && after.statuses == st.statuses + [Status(Some(providerId), Starting)] + [Status(Some(providerId), OpenError)]
  }

  lemma BeginOpens(st: State, providerId: string, config: Config)
    requires st.activeProviderId.None?
    ensures Takes(st, Begin(st, providerId, config, true), providerId, config)
    ensures Opens(st, Begin(st, providerId, config, true), providerId)
  {
  }

  lemma BeginFails(st: State, providerId: string, config: Config)
    requires st.activeProviderId.None?
    ensures Takes(st, Begin(st, providerId, config, false), providerId, config)
    ensures FailsToOpen(st, Begin(st, providerId, config, false), providerId)
  {
  }

  /** Starting does this when no login is active, depending on whether the window opens, and else nothing. */
  lemma StartDoes(sessions: Sessions, run: Run, st: State, providerId: string, config: Config, opens: bool)
    requires Reaches(sessions, run, st)
    ensures WellFormed(st)
    ensures
      var after := Step(st, Start(providerId, config, opens));
      if st.activeProviderId.Some? then after == st
      else
        && Takes(st, after, providerId, config)
        && if opens then Opens(st, after, providerId) else FailsToOpen(st, after, providerId)
  {
    ReachableIsSound(sessions, run, st);
    if st.activeProviderId.None? {
      if opens {
        BeginOpens(st, providerId, config);
      } else {
        BeginFails(st, providerId, config);
      }
    }
  }

  /**
   * A request of a window adds the headers its own login asks for that were still missing and
   * that it carries with text, trimmed, and changes nothing else.
   */
  lemma RequestDoes(sessions: Sessions, run: Run, st: State, s: nat, headers: map<string, string>)
    requires Reaches(sessions, run, st) && Enabled(st, Request(s, headers))
    ensures WellFormed(st)
    ensures
      var (before, after) := (st.headerCredentials, Step(st, Request(s, headers)));
      && after == st.(headerCredentials := after.headerCredentials)
      && (forall k :: k in after.headerCredentials <==>
            k in before || (k in st.closures[s].config.headerNames && Carries(headers, k)))
      && (forall k | k in before :: after.headerCredentials[k] == before[k])
      && (forall k | k in after.headerCredentials && k !in before ::
            Carries(headers, k) && after.headerCredentials[k] == Some(Text.Trim(headers[Text.Lower(k)])))
  {
    ReachableIsSound(sessions, run, st);
    ReachableIsFaithful(sessions, run, st);
    CaptureAddsMissing(st.closures[s].config.headerNames, headers, st.headerCredentials);
  }

  // -------------------------------------------------------------------------- a run

  lemma CookieEndsLogin(st: State, closure: Closure, name: string, value: string)
    requires WellFormed(st) && Waiting(st, closure, 3, CookieReply(1), 4) && closure.config == Config([name], [], [])
    ensures Enabled(st, Cookies(3, Some(map[name := value])))
    ensures Step(st, Cookies(3, Some(map[name := value]))).settled ==
              [Settlement(1, Success(map[name := Some(value)]), 1)]
  {
    var credentials: Credentials := map[name := Some(value)];
    assert st.headerCredentials + FoundCookies(map[name := value]) == credentials;
    assert Required(closure.config) == {name};
    assert name in credentials;
  }

  /** A possible run of one login, for a provider with one cookie: it is found, and the login succeeds with it. */
  lemma CookieLoginSucceeds(providerId: string, name: string, value: string) returns (run: Run, st: State)
    ensures Reaches(OneAtATime, run, st)
    ensures Trace(run) == [Start(providerId, Config([name], [], []), true), Fire(0), Fire(2),
                           Cookies(3, Some(map[name := value]))]
    ensures st.settled == [Settlement(1, Success(map[name := Some(value)]), 1)]
  {
    var closure := Closure(providerId, Config([name], [], []));
    run, st := UpToFirstPoll(closure);
    var polling := st;
    run, st := ThenEvent(run, st, Fire(2));
    TimerGoesOn(polling, closure, 2, Poll(1), 3);
    var asked := st;
    run, st := ThenEvent(run, st, Cookies(3, Some(map[name := value])));
    CookieEndsLogin(asked, closure, name, value);
  }
}
