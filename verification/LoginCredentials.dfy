/**
 * What a successful login hands back: which names it must hold, where a value may be missing,
 * and where captured headers can come from.
 */
module LoginCredentials {
  import opened Options
  import opened LoginProtocol
  import opened LoginSessions
  import Text

  // -------------------------------------------------------------- captured headers

  ghost predicate AllPresent(credentials: Credentials) {
    forall k | k in credentials :: credentials[k].Some?
  }

  ghost predicate AllFilled(credentials: Credentials) {
    forall k | k in credentials :: credentials[k].Some? && credentials[k].value != ""
  }

  predicate Carries(headers: map<string, string>, name: string) {
    Text.Lower(name) in headers && !Text.Blank(headers[Text.Lower(name)])
  }

  lemma TrimOfNonBlank(s: string)
    requires !Text.Blank(s)
    ensures Text.Trim(s) != ""
  {
    var before, after := Text.TrimParts(s);
  }

  lemma CaptureOneAdds(name: string, headers: map<string, string>, credentials: Credentials)
    requires AllFilled(credentials)
    ensures CaptureOne(name, headers, credentials) ==
      if name !in credentials && Carries(headers, name)
      then credentials[name := Some(Text.Trim(headers[Text.Lower(name)]))] else credentials
    ensures AllFilled(CaptureOne(name, headers, credentials))
  {
    if Carries(headers, name) {
      TrimOfNonBlank(headers[Text.Lower(name)]);
    }
  }

  /**
   * A request adds exactly the configured headers that it carries and that were still missing; a
   * captured value stays.
   */
  lemma {:induction false} CaptureAddsMissing(names: seq<string>, headers: map<string, string>,
                                              credentials: Credentials)
    requires AllFilled(credentials)
    ensures AllFilled(Capture(names, headers, credentials))
    ensures forall k | k in credentials ::
              k in Capture(names, headers, credentials) && Capture(names, headers, credentials)[k] == credentials[k]
    ensures forall k :: k in Capture(names, headers, credentials) <==>
              k in credentials || (k in names && Carries(headers, k))
    ensures forall k | k in Capture(names, headers, credentials) && k !in credentials ::
              Carries(headers, k) && Capture(names, headers, credentials)[k] == Some(Text.Trim(headers[Text.Lower(k)]))
  {
    if names != [] {
      CaptureOneAdds(names[0], headers, credentials);
      CaptureAddsMissing(names[1..], headers, CaptureOne(names[0], headers, credentials));
      assert forall k :: k in names <==> k == names[0] || k in names[1..];
    }
  }

  // ------------------------------------------------------------- what success holds

  /** All required names are there, and only a page-storage value may be missing. */
  ghost predicate Complete(config: Config, credentials: Credentials) {
    && Required(config) <= credentials.Keys
    && credentials != map[]
    && (forall k | k in credentials && credentials[k].None? :: k in StorageKeys(config))
  }

  ghost predicate Harvested(closures: map<nat, Closure>, settlement: Settlement) {
    settlement.outcome.Success? ==>
      settlement.cause in closures && Complete(closures[settlement.cause].config, settlement.outcome.credentials)
  }

  ghost predicate Faithful(st: State) {
    && AllFilled(st.headerCredentials)
    && (forall id | id in st.pending && st.pending[id].StorageReply? :: AllPresent(st.pending[id].credentials))
    && (forall i | 0 <= i < |st.settled| :: Harvested(st.closures, st.settled[i]))
  }

  lemma FinishFaithful(st: State, providerId: Option<string>, kind: StatusKind, outcome: Outcome, cause: nat)
    requires Faithful(st) && Harvested(st.closures, Settlement(st.resolvePromise, outcome, cause))
    ensures Faithful(Finish(st, providerId, kind, outcome, cause))
  {
  }

  lemma ArmFaithful(st: State, task: Task)
    requires Faithful(st) && (task.StorageReply? ==> AllPresent(task.credentials))
    ensures Faithful(Arm(st, task))
  {
    assert forall id | id in Arm(st, task).pending :: id == st.nextId || id in st.pending;
  }

  lemma BeginFaithful(st: State, providerId: string, config: Config, opens: bool)
    requires Sound(st) && Faithful(st)
    ensures Faithful(Begin(st, providerId, config, opens))
  {
    if st.activeProviderId.None? {
      var taken := Take(st, providerId, config);
      forall i | 0 <= i < |taken.settled|
        ensures Harvested(taken.closures, taken.settled[i])
      {
        assert Harvested(st.closures, st.settled[i]);
      }
      if opens {
        var s := taken.session;
        var shown := Emit(taken.(window := Some(s), windows := taken.windows + {s}), Some(providerId), Loading);
        ArmFaithful(shown, MinLogin(s));
        ArmFaithful(Arm(shown, MinLogin(s)).(timeoutId := Some(shown.nextId)), Overall(s));
      } else {
        FinishFaithful(taken, Some(providerId), OpenError, Failed(OpenFailed), taken.session);
      }
    }
  }

  lemma CheckFaithful(st: State, s: nat, credentials: Credentials)
    requires Faithful(st) && s in st.closures
    requires forall k | k in credentials && credentials[k].None? :: k in StorageKeys(st.closures[s].config)
    ensures Faithful(CheckCredentials(st, s, credentials))
  {
    if !st.isCompleted {
      ArmFaithful(st, Poll(s));
      if Required(st.closures[s].config) <= credentials.Keys && credentials != map[] {
        FinishFaithful(st, Some(st.closures[s].providerId), StatusKind.Complete, Success(credentials), s);
      }
    }
  }

  lemma CookiesFaithful(st: State, s: nat, found: Option<map<string, string>>)
    requires Faithful(st) && s in st.closures
    ensures Faithful(OnCookies(st, s, found))
  {
    if !st.isCompleted {
      ArmFaithful(st, Poll(s));
      if found.Some? {
        var credentials := st.headerCredentials + FoundCookies(found.value);
        assert AllPresent(credentials);
        ArmFaithful(st, StorageReply(s, credentials));
        CheckFaithful(st, s, credentials);
      }
    }
  }

  lemma StepFaithful(st: State, e: Event)
    requires Sound(st) && Faithful(st) && Enabled(st, e)
    ensures Faithful(Step(st, e))
  {
    match e
    case Start(providerId, config, opens) => BeginFaithful(st, providerId, config, opens);
    case Fire(id) =>
      var fired, task := st.(pending := st.pending - {id}), st.pending[id];
      ArmFaithful(fired, Poll(task.session));
      ArmFaithful(fired, CookieReply(task.session));
      FinishFaithful(fired, Some(st.closures[task.session].providerId), Expired, Failed(LoginTimedOut), task.session);
    case Cookies(id, found) => CookiesFaithful(st.(pending := st.pending - {id}), st.pending[id].session, found);
    case Storage(id, values) =>
      var task := st.pending[id];
      CheckFaithful(st.(pending := st.pending - {id}), task.session,
                    if values.Some? then task.credentials + values.value else task.credentials);
    case WindowGone(s) =>
      var gone := st.(windows := st.windows - {s});
      FinishFaithful(gone, Some(st.closures[s].providerId), Closed, Failed(WindowClosed), s);
    case Request(s, headers) => CaptureAddsMissing(st.closures[s].config.headerNames, headers, st.headerCredentials);
    case Cancel => FinishFaithful(st, None, CancelCalled, Failed(LoginCancelled), st.session);
  }

  lemma {:induction false} ReachableIsFaithful(sessions: Sessions, run: Run, st: State)
    requires Reaches(sessions, run, st)
    ensures Faithful(st)
  {
    if run.Next? {
      var prior :| Reaches(sessions, run.before, prior) && WellFormed(prior) && Allowed(sessions, prior, run.event) &&
          st == Step(prior, run.event);
      ReachableIsSound(sessions, run.before, prior);
      ReachableIsFaithful(sessions, run.before, prior);
      StepFaithful(prior, run.event);
    }
  }

  /**
   * In every interleaving a successful result holds every name its provider requires, and each
   * cookie and header among them has a value; only a page-storage value can be missing.
   */
  lemma SuccessHasEveryName(sessions: Sessions, run: Run, st: State)
    requires Reaches(sessions, run, st)
    ensures forall i | 0 <= i < |st.settled| && st.settled[i].outcome.Success? ::
              && st.settled[i].cause in st.closures
              && Complete(st.closures[st.settled[i].cause].config, st.settled[i].outcome.credentials)
  {
    ReachableIsFaithful(sessions, run, st);
    assert forall i | 0 <= i < |st.settled| :: Harvested(st.closures, st.settled[i]);
  }

  // ----------------------------------------------------------- the page-storage test

  /**
   * A page that answers for every configured key completes the login exactly when the cookies
   * and headers are there. What the page's storage holds does not matter: the answer null
   * counts as found and is handed back as the token.
   */
  lemma StorageAnswerAlwaysCounts(st: State, id: nat, values: Credentials)
    requires Sound(st) && Enabled(st, Storage(id, Some(values))) && st.activeProviderId.Some?
    requires var config := st.closures[st.pending[id].session].config; values.Keys == StorageKeys(config) != {}
    ensures
      var task, after := st.pending[id], Step(st, Storage(id, Some(values)));
      var config := st.closures[task.session].config;
      var enough := CookieNames(config) + HeaderNames(config) <= task.credentials.Keys + values.Keys;
      && (after.activeProviderId.None? <==> enough)
      && (enough ==>
            after.settled == st.settled + [Settlement(st.session, Success(task.credentials + values), task.session)])
  {
    var task := st.pending[id];
    var credentials := task.credentials + values;
    var config := st.closures[task.session].config;
    assert Required(config) == CookieNames(config) + HeaderNames(config) + StorageKeys(config);
    assert credentials.Keys == task.credentials.Keys + values.Keys;
    var k :| k in values.Keys;
    assert k in credentials;
  }

  /** The page answers null for one of its keys. */
  predicate AnswersNull(e: Event) {
    e.Storage? && e.values.Some? && exists k | k in e.values.value :: e.values.value[k].None?
  }

  /** The event settles a login successfully. */
  predicate Succeeds(st: State, e: Event)
    requires WellFormed(st) && Enabled(st, e)
  {
    var after := Step(st, e);
    |after.settled| == |st.settled| + 1 && after.settled[|st.settled|].outcome.Success?
  }

  lemma CheckReports(st: State, s: nat, credentials: Credentials)
    requires s in st.closures
    ensures
      var after := CheckCredentials(st, s, credentials);
      || after.settled == st.settled
      || after.settled == st.settled + [Settlement(st.resolvePromise, Success(credentials), s)]
  {
  }

  lemma MergedPresentIff(collected: Credentials, values: Credentials)
    requires AllPresent(collected)
    ensures AllPresent(collected + values) <==> AllPresent(values)
  {
    if AllPresent(collected + values) {
      forall k | k in values ensures values[k].Some? {
        assert (collected + values)[k] == values[k];
      }
    }
  }

  /**
   * Which successes lack a value: in every reachable state, the credentials an event reports
   * are all present exactly when that event is not a page's answer holding a null.
   */
  lemma ReportedPresentIff(sessions: Sessions, run: Run, st: State, e: Event)
    requires Reaches(sessions, run, st) && Enabled(st, e)
    ensures WellFormed(st)
    ensures Succeeds(st, e) ==>
              (AllPresent(Step(st, e).settled[|st.settled|].outcome.credentials) <==> !AnswersNull(e))
  {
    ReachableIsSound(sessions, run, st);
    ReachableIsFaithful(sessions, run, st);
    match e
    case Cookies(id, found) =>
      if found.Some? {
        var credentials := st.headerCredentials + FoundCookies(found.value);
        assert AllPresent(credentials);
        CheckReports(st.(pending := st.pending - {id}), st.pending[id].session, credentials);
      }
    case Storage(id, values) =>
      var task := st.pending[id];
      CheckReports(st.(pending := st.pending - {id}), task.session,
                   if values.Some? then task.credentials + values.value else task.credentials);
      if values.Some? {
        MergedPresentIff(task.credentials, values.value);
      }
    case Start(_, _, _) =>
    case Fire(_) =>
    case WindowGone(_) =>
    case Request(_, _) =>
    case Cancel =>
  }

  /** The first login is active, nothing is collected, and task `id` is what it waits for; `nextId` comes next. */
  ghost predicate Waiting(st: State, closure: Closure, id: nat, task: Task, nextId: nat) {
    && st.activeProviderId.Some? && !st.isCompleted && st.session == 1 && st.resolvePromise == 1
    && st.closures == map[1 := closure] && st.headerCredentials == map[]
    && st.window == Some(1) && st.windows == {1}
    && id in st.pending && st.pending[id] == task && st.nextId == nextId && st.settled == []
  }

  lemma FirstStart(closure: Closure)
    ensures Waiting(Begin(INITIAL, closure.providerId, closure.config, true), closure, 0, MinLogin(1), 2)
  {
  }

  lemma TimerGoesOn(st: State, closure: Closure, id: nat, task: Task, nextId: nat)
    requires WellFormed(st) && Waiting(st, closure, id, task, nextId) && (task == MinLogin(1) || task == Poll(1))
    ensures Waiting(Step(st, Fire(id)), closure, nextId, if task.Poll? then CookieReply(1) else Poll(1), nextId + 1)
  {
  }

  lemma NoCookiesGoOn(st: State, closure: Closure, id: nat, nextId: nat)
    requires WellFormed(st) && Waiting(st, closure, id, CookieReply(1), nextId) && closure.config.storageKeys != []
    ensures Waiting(Step(st, Cookies(id, Some(map[]))), closure, nextId, StorageReply(1, map[]), nextId + 1)
  {
    assert st.headerCredentials + FoundCookies(map[]) == map[];
  }

  lemma NullEndsLogin(st: State, closure: Closure, id: nat, nextId: nat, key: string)
    requires WellFormed(st) && Waiting(st, closure, id, StorageReply(1, map[]), nextId) &&
              closure.config == Config([], [key], [])
    ensures Enabled(st, Storage(id, Some(map[key := None])))
    ensures Step(st, Storage(id, Some(map[key := None]))).settled == [Settlement(1, Success(map[key := None]), 1)]
  {
    var values: Credentials := map[key := None];
    assert st.pending[id].credentials + values == values;
    assert Required(closure.config) == {key};
    assert key in values;
  }

  lemma ThenEvent(run: Run, st: State, e: Event) returns (next: Run, after: State)
    requires Reaches(OneAtATime, run, st)
    ensures WellFormed(st) && (Allowed(OneAtATime, st, e) ==>
              after == Step(st, e) && Reaches(OneAtATime, next, after) && Trace(next) == Trace(run) + [e])
  {
    ReachableIsSound(OneAtATime, run, st);
    next, after := Next(run, e), st;
    if Allowed(OneAtATime, st, e) {
      after := Step(st, e);
    }
  }

  lemma UpToFirstPoll(closure: Closure) returns (run: Run, st: State)
    ensures Reaches(OneAtATime, run, st) && Waiting(st, closure, 2, Poll(1), 3)
    ensures Trace(run) == [Start(closure.providerId, closure.config, true), Fire(0)]
  {
    run, st := ThenEvent(Begun, INITIAL, Start(closure.providerId, closure.config, true));
    FirstStart(closure);
    var started := st;
    run, st := ThenEvent(run, st, Fire(0));
    TimerGoesOn(started, closure, 0, MinLogin(1), 2);
  }

  lemma UpToStorage(closure: Closure) returns (run: Run, st: State)
    requires closure.config.storageKeys != []
    ensures Reaches(OneAtATime, run, st) && Waiting(st, closure, 4, StorageReply(1, map[]), 5)
    ensures Trace(run) == [Start(closure.providerId, closure.config, true), Fire(0), Fire(2), Cookies(3, Some(map[]))]
  {
    run, st := UpToFirstPoll(closure);
    var polling := st;
    run, st := ThenEvent(run, st, Fire(2));
    TimerGoesOn(polling, closure, 2, Poll(1), 3);
    var asked := st;
    run, st := ThenEvent(run, st, Cookies(3, Some(map[])));
    NoCookiesGoOn(asked, closure, 3, 4);
  }

  /**
   * A possible run of one login, for a provider with one storage key: its page answers null, and
   * null is reported as the token.
   */
  lemma NullTokenIsReported(providerId: string, key: string) returns (run: Run, st: State)
    ensures Reaches(OneAtATime, run, st)
    ensures Trace(run) == [Start(providerId, Config([], [key], []), true), Fire(0), Fire(2), Cookies(3, Some(map[])),
                           Storage(4, Some(map[key := None]))]
    ensures st.settled == [Settlement(1, Success(map[key := None]), 1)]
  {
    var closure := Closure(providerId, Config([], [key], []));
    run, st := UpToStorage(closure);
    var asked := st;
    run, st := ThenEvent(run, st, Storage(4, Some(map[key := None])));
    NullEndsLogin(asked, closure, 4, 5, key);
  }

  // -------------------------------------------------- headers captured between logins

  /** A request that carries a header its window's login asks for. */
  ghost predicate RequestCarries(st: State, e: Event) {
    && e.Request? && e.session in st.closures
    && exists name :: name in st.closures[e.session].config.headerNames && Carries(e.headers, name)
  }

  /** An event that ends a login, and so clears what was captured. */
  predicate CleansUp(st: State, e: Event)
    requires WellFormed(st) && Enabled(st, e)
  {
    |Step(st, e).settled| > |st.settled|
  }

  /** Since the last clean-up some request carried a header its window's login asks for. */
  ghost predicate Carried(sessions: Sessions, run: Run) {
    match run
    case Begun => false
    case Next(before, e) =>
      exists st | Reaches(sessions, before, st) && WellFormed(st) && Allowed(sessions, st, e) ::
        !CleansUp(st, e) && (Carried(sessions, before) || RequestCarries(st, e))
  }

  lemma StepHeaders(st: State, e: Event)
    requires Sound(st) && Faithful(st) && Enabled(st, e)
    ensures Step(st, e).headerCredentials == map[] <==>
              CleansUp(st, e) || (st.headerCredentials == map[] && !RequestCarries(st, e))
  {
    match e
    case Request(s, headers) =>
      CaptureEmptyIff(st.closures[s].config.headerNames, headers, st.headerCredentials);
    case Fire(_) =>
    case Cookies(_, _) =>
    case Storage(_, _) =>
    case Start(_, _, _) =>
    case WindowGone(_) =>
    case Cancel =>
  }

  lemma CaptureEmptyIff(names: seq<string>, headers: map<string, string>, credentials: Credentials)
    requires AllFilled(credentials)
    ensures Capture(names, headers, credentials) == map[] <==>
              credentials == map[] && !exists name :: name in names && Carries(headers, name)
  {
    CaptureAddsMissing(names, headers, credentials);
    if credentials != map[] {
      var k :| k in credentials;
      assert k in Capture(names, headers, credentials);
    }
  }

  lemma {:induction false} ReachesOne(sessions: Sessions, run: Run, a: State, b: State)
    requires Reaches(sessions, run, a) && Reaches(sessions, run, b)
    ensures a == b
  {
    if run.Next? {
      var x :| Reaches(sessions, run.before, x) && WellFormed(x) && Allowed(sessions, x, run.event)
               && a == Step(x, run.event);
      var y :| Reaches(sessions, run.before, y) && WellFormed(y) && Allowed(sessions, y, run.event)
               && b == Step(y, run.event);
      ReachesOne(sessions, run.before, x, y);
    }
  }

  /**
   * In every reachable state, however sessions overlap: headers are held exactly when, since
   * the last login ended, some request carried one that its window's login asks for.
   */
  lemma {:induction false} HeadersHeldIff(sessions: Sessions, run: Run, st: State)
    requires Reaches(sessions, run, st)
    ensures st.headerCredentials == map[] <==> !Carried(sessions, run)
  {
    if run.Next? {
      var prior :| Reaches(sessions, run.before, prior) && WellFormed(prior) && Allowed(sessions, prior, run.event)
                   && st == Step(prior, run.event);
      ReachableIsSound(sessions, run.before, prior);
      ReachableIsFaithful(sessions, run.before, prior);
      HeadersHeldIff(sessions, run.before, prior);
      StepHeaders(prior, run.event);
      forall x | Reaches(sessions, run.before, x) ensures x == prior {
        ReachesOne(sessions, run.before, x, prior);
      }
    }
  }

  lemma BeginKeepsHeaders(st: State, providerId: string, config: Config)
    requires st.activeProviderId.None?
    ensures Begin(st, providerId, config, true).headerCredentials == st.headerCredentials
    ensures Begin(st, providerId, config, true).activeProviderId == Some(providerId)
  {
  }

  /** A login that starts holds no header of an earlier one exactly when none was carried since that one ended. */
  lemma StartsFreshIff(sessions: Sessions, run: Run, st: State, providerId: string, config: Config)
    requires Reaches(sessions, run, st) && st.activeProviderId.None?
    ensures Begin(st, providerId, config, true).headerCredentials == map[] <==> !Carried(sessions, run)
  {
    HeadersHeldIff(sessions, run, st);
    BeginKeepsHeaders(st, providerId, config);
  }

  /** No login starts with a header that was carried before it. */
  ghost predicate FreshStarts(sessions: Sessions, run: Run) {
    match run
    case Begun => true
    case Next(before, e) =>
      && FreshStarts(sessions, before)
      && (e.Start? ==>
            forall st | Reaches(sessions, before, st) :: st.activeProviderId.None? ==> !Carried(sessions, before))
  }

  /** The names collected so far are names of the login that collects them, and a success holds exactly its own. */
  ghost predicate Exact(st: State) {
    && (forall i | 0 <= i < |st.settled| && st.settled[i].outcome.Success? ::
          && st.settled[i].cause in st.closures
          && st.settled[i].outcome.credentials.Keys == Required(st.closures[st.settled[i].cause].config))
    && (forall id | id in st.pending && st.pending[id].StorageReply? ::
          && st.pending[id].session in st.closures
          && st.pending[id].credentials.Keys <= Required(st.closures[st.pending[id].session].config))
    && (st.activeProviderId.Some? ==>
          st.session in st.closures && st.headerCredentials.Keys <= HeaderNames(st.closures[st.session].config))
  }

  lemma FinishExact(st: State, providerId: Option<string>, kind: StatusKind, outcome: Outcome, cause: nat)
    requires Exact(st) && cause in st.closures
    requires outcome.Success? ==> outcome.credentials.Keys == Required(st.closures[cause].config)
    ensures Exact(Finish(st, providerId, kind, outcome, cause))
  {
  }

  lemma ArmExact(st: State, task: Task)
    requires Exact(st)
    requires task.StorageReply? ==>
              task.session in st.closures && task.credentials.Keys <= Required(st.closures[task.session].config)
    ensures Exact(Arm(st, task))
  {
    assert forall id | id in Arm(st, task).pending :: id == st.nextId || id in st.pending;
  }

  lemma TakeExact(st: State, providerId: string, config: Config)
    requires Sound(st) && Exact(st) && st.activeProviderId.None? && st.headerCredentials == map[]
    ensures Exact(Take(st, providerId, config))
  {
    var taken := Take(st, providerId, config);
    assert taken.closures[taken.session].config == config;
    assert forall s | s in st.closures :: s != taken.session && taken.closures[s] == st.closures[s];
  }

  lemma OpenWindowExact(st: State, providerId: string)
    requires Exact(st) && st.activeProviderId.Some?
    ensures Exact(OpenWindow(st, providerId))
  {
    var s := st.session;
    var shown := Emit(st.(window := Some(s), windows := st.windows + {s}), Some(providerId), Loading);
    ArmExact(shown, MinLogin(s));
    ArmExact(Arm(shown, MinLogin(s)).(timeoutId := Some(shown.nextId)), Overall(s));
  }

  lemma CheckExact(st: State, s: nat, credentials: Credentials)
    requires Exact(st) && s in st.closures && credentials.Keys <= Required(st.closures[s].config)
    ensures Exact(CheckCredentials(st, s, credentials))
  {
    if !st.isCompleted {
      ArmExact(st, Poll(s));
      if Required(st.closures[s].config) <= credentials.Keys && credentials != map[] {
        FinishExact(st, Some(st.closures[s].providerId), StatusKind.Complete, Success(credentials), s);
      }
    }
  }

  lemma CookiesExact(st: State, found: Option<map<string, string>>)
    requires Sound(st) && Exact(st) && st.session in st.closures
    requires found.Some? ==> found.value.Keys <= CookieNames(st.closures[st.session].config)
    ensures Exact(OnCookies(st, st.session, found))
  {
    if !st.isCompleted {
      ArmExact(st, Poll(st.session));
      if found.Some? {
        var credentials := st.headerCredentials + FoundCookies(found.value);
        ArmExact(st, StorageReply(st.session, credentials));
        CheckExact(st, st.session, credentials);
      }
    }
  }

  lemma RequestExact(st: State, headers: map<string, string>)
    requires Exact(st) && AllFilled(st.headerCredentials) && st.session in st.closures
    ensures
      var names := st.closures[st.session].config.headerNames;
      Exact(st.(headerCredentials := Capture(names, headers, st.headerCredentials)))
  {
    CaptureAddsMissing(st.closures[st.session].config.headerNames, headers, st.headerCredentials);
  }

  lemma StepExact(st: State, e: Event)
    requires Tidy(st) && Faithful(st) && Exact(st) && Allowed(OneAtATime, st, e)
    requires e.Start? && st.activeProviderId.None? ==> st.headerCredentials == map[]
    ensures Exact(Step(st, e))
  {
    match e
    case Start(providerId, config, opens) =>
      if st.activeProviderId.None? {
        TakeExact(st, providerId, config);
        var taken := Take(st, providerId, config);
        OpenWindowExact(taken, providerId);
        FinishExact(taken, Some(providerId), OpenError, Failed(OpenFailed), taken.session);
      }
    case Fire(id) =>
      var fired, task := st.(pending := st.pending - {id}), st.pending[id];
      ArmExact(fired, Poll(task.session));
      ArmExact(fired, CookieReply(task.session));
      FinishExact(fired, Some(st.closures[task.session].providerId), Expired, Failed(LoginTimedOut), task.session);
    case Cookies(id, found) =>
      WithoutSound(st, id);
      CookiesExact(st.(pending := st.pending - {id}), found);
    case Storage(id, values) =>
      var task := st.pending[id];
      CheckExact(st.(pending := st.pending - {id}), task.session,
                 if values.Some? then task.credentials + values.value else task.credentials);
    case WindowGone(s) =>
      FinishExact(st.(windows := st.windows - {s}), Some(st.closures[s].providerId), Closed, Failed(WindowClosed), s);
    case Request(s, headers) => RequestExact(st, headers);
    case Cancel =>
      if st.activeProviderId.Some? {
        FinishExact(st, None, CancelCalled, Failed(LoginCancelled), st.session);
      }
  }

  lemma {:induction false} ReachableIsExact(run: Run, st: State)
    requires Reaches(OneAtATime, run, st) && FreshStarts(OneAtATime, run)
    ensures Exact(st)
  {
    if run.Next? {
      var prior :| Reaches(OneAtATime, run.before, prior) && WellFormed(prior) &&
          Allowed(OneAtATime, prior, run.event) && st == Step(prior, run.event);
      OneAtATimeIsTidy(run.before, prior);
      ReachableIsFaithful(OneAtATime, run.before, prior);
      ReachableIsExact(run.before, prior);
      HeadersHeldIff(OneAtATime, run.before, prior);
      StepExact(prior, run.event);
    }
  }

  /**
   * Logins one at a time, none of which starts with a header carried before it: every success
   * belongs to the session that reports it and holds exactly the names its provider asks for.
   */
  lemma SuccessHoldsExactlyItsNames(run: Run, st: State)
    requires Reaches(OneAtATime, run, st) && FreshStarts(OneAtATime, run)
    ensures forall i | 0 <= i < |st.settled| && st.settled[i].outcome.Success? ::
              && st.settled[i].session in st.closures
              && st.settled[i].outcome.credentials.Keys == Required(st.closures[st.settled[i].session].config)
  {
    OneAtATimeIsTidy(run, st);
    ReachableIsExact(run, st);
  }

  lemma ThenRequest(run: Run, st: State, headers: map<string, string>) returns (next: Run, after: State)
    requires Reaches(OneAtATime, run, st) && st.session in st.windows && st.session in st.closures
    ensures Reaches(OneAtATime, next, after) && Trace(next) == Trace(run) + [Request(st.session, headers)]
    ensures
      var names := st.closures[st.session].config.headerNames;
      after == st.(headerCredentials := Capture(names, headers, st.headerCredentials))
  {
    next := Next(run, Request(st.session, headers));
    after := Extend(OneAtATime, run, st, Request(st.session, headers));
  }

  lemma ThenLateClose(run: Run, st: State) returns (next: Run, after: State)
    requires Reaches(OneAtATime, run, st) && st.session in st.windows && st.activeProviderId.None?
    ensures Reaches(OneAtATime, next, after) && Trace(next) == Trace(run) + [WindowGone(st.session)]
    ensures after == st.(windows := st.windows - {st.session})
  {
    ReachableIsSound(OneAtATime, run, st);
    next := Next(run, WindowGone(st.session));
    after := Extend(OneAtATime, run, st, WindowGone(st.session));
  }

  lemma ThenStartDrained(run: Run, st: State, providerId: string, config: Config) returns (next: Run, after: State)
    requires Reaches(OneAtATime, run, st) && Drained(st) && st.activeProviderId.None?
    ensures Reaches(OneAtATime, next, after) && Trace(next) == Trace(run) + [Start(providerId, config, true)]
    ensures after.activeProviderId == Some(providerId) && after.headerCredentials == st.headerCredentials
  {
    next := Next(run, Start(providerId, config, true));
    after := Extend(OneAtATime, run, st, Start(providerId, config, true));
    BeginKeepsHeaders(st, providerId, config);
  }

  /**
   * A request of a window that is closing after its login ended is still captured, and the
   * next login starts with what it carried, even when it waits for that window to be gone.
   */
  lemma LateRequestReachesNextLogin(run: Run, st: State, headers: map<string, string>, providerId: string,
                                    config: Config)
    returns (next: Run, after: State)
    requires Reaches(OneAtATime, run, st) && st.activeProviderId.None? && st.session in st.closures
    requires st.pending == map[] && st.windows == {st.session}
    ensures Reaches(OneAtATime, next, after)
    ensures Trace(next) ==
              Trace(run) + [Request(st.session, headers), WindowGone(st.session), Start(providerId, config, true)]
    ensures after.activeProviderId == Some(providerId)
    ensures after.headerCredentials ==
              Capture(st.closures[st.session].config.headerNames, headers, st.headerCredentials)
  {
    next, after := ThenRequest(run, st, headers);
    next, after := ThenLateClose(next, after);
    next, after := ThenStartDrained(next, after, providerId, config);
  }
}
