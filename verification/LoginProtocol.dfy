/**
 * The web-login protocol as steps: the manager's fields, the event loop's pending tasks, and
 * what each event does. Events come in any order the event loop allows: a timer that is
 * armed may fire, a request that is outstanding may be answered, a window that exists
 * may close, and the caller may cancel or start at any moment.
 *
 * Callbacks belong to the session that created them, but they test and change one shared set
 * of fields. The theorems say what holds however sessions overlap, and what holds when a
 * session starts only after the previous one's callbacks have drained.
 */
module LoginProtocol {
  import opened Options
  import Text

  /** Which cookies, page-storage keys and request headers a provider's credentials consist of. */
  datatype Config = Config(cookieNames: seq<string>, storageKeys: seq<string>, headerNames: seq<string>)

  /** Collected values; page storage may yield an explicit null. */
  type Credentials = map<string, Option<string>>

  datatype Failure = WindowClosed | LoginTimedOut | LoginCancelled | OpenFailed

  datatype Outcome = Success(credentials: Credentials) | Failed(reason: Failure)

  /** A promise settled: whose, how, and by a callback of which session. */
  datatype Settlement = Settlement(session: nat, outcome: Outcome, cause: nat)

  datatype StatusKind = Starting | Loading | Closed | Expired | Complete | CancelCalled | OpenError

  datatype Status = Status(providerId: Option<string>, kind: StatusKind)

  /** What a session's callbacks close over. */
  datatype Closure = Closure(providerId: string, config: Config)

  /** Something the event loop will still run for a session. */
  datatype Task =
    | MinLogin(session: nat)
    | Overall(session: nat)
    | Poll(session: nat)
    | CookieReply(session: nat)
    | StorageReply(session: nat, credentials: Credentials)
  {
    predicate IsTimer() {
      MinLogin? || Overall? || Poll?
    }
  }

  datatype State = State(
    // the manager's fields
    isCompleted: bool, activeProviderId: Option<string>, resolvePromise: nat,
    timeoutId: Option<nat>, timeoutTimer: Option<nat>, pollIntervalId: Option<nat>,
    window: Option<nat>, headerCredentials: Credentials,
    // the event loop around it
    session: nat, closures: map<nat, Closure>, nextId: nat, pending: map<nat, Task>, windows: set<nat>,
    settled: seq<Settlement>, statuses: seq<Status>)

  const INITIAL := State(false, None, 0, None, None, None, None, map[], 0, map[], 0, map[], {}, [], [])

  datatype Event =
    | Start(providerId: string, config: Config, opens: bool)
    | Fire(id: nat)
    | Cookies(id: nat, found: Option<map<string, string>>)
    | Storage(id: nat, values: Option<Credentials>)
    | WindowGone(session: nat)
    | Request(session: nat, headers: map<string, string>)
    | Cancel

  /** What the event loop, the windows and the caller can do next; a reply is reduced to the configured names. */
  predicate Enabled(st: State, e: Event) {
    match e
    case Start(_, _, _) => true
    case Fire(id) => id in st.pending && st.pending[id].IsTimer()
    case Cookies(id, found) =>
      && id in st.pending && st.pending[id].CookieReply?
      && (found.Some? && st.pending[id].session in st.closures ==>
            found.value.Keys <= CookieNames(st.closures[st.pending[id].session].config))
    case Storage(id, values) =>
      && id in st.pending && st.pending[id].StorageReply?
      && (values.Some? && st.pending[id].session in st.closures ==>
            values.value.Keys <= StorageKeys(st.closures[st.pending[id].session].config))
    case WindowGone(s) => s in st.windows
    case Request(s, _) => s in st.windows
    case Cancel => true
  }

  // -------------------------------------------------------------------------- steps

  function Ids(a: Option<nat>, b: Option<nat>, c: Option<nat>): set<nat> {
    (if a.Some? then {a.value} else {}) + (if b.Some? then {b.value} else {}) + (if c.Some? then {c.value} else {})
  }

  /** Everything the manager releases: flags, the three timers, its window and the captured headers. */
  function CleanUp(st: State): State {
    st.(isCompleted := true, activeProviderId := None,
        pending := st.pending - Ids(st.timeoutId, st.timeoutTimer, st.pollIntervalId),
        timeoutId := None, timeoutTimer := None, pollIntervalId := None,
        window := None, headerCredentials := map[])
  }

  function Emit(st: State, providerId: Option<string>, kind: StatusKind): State {
    st.(statuses := st.statuses + [Status(providerId, kind)])
  }

  function Resolve(st: State, outcome: Outcome, cause: nat): State {
    if st.resolvePromise == 0 then st
    else st.(settled := st.settled + [Settlement(st.resolvePromise, outcome, cause)])
  }

  /** Clean up, tell the listeners, settle the promise. */
  function Finish(st: State, providerId: Option<string>, kind: StatusKind, outcome: Outcome, cause: nat): State {
    Resolve(Emit(CleanUp(st), providerId, kind), outcome, cause)
  }

  function Arm(st: State, task: Task): State {
    st.(pending := st.pending[st.nextId := task], nextId := st.nextId + 1)
  }

  function ArmPoll(st: State, s: nat): State {
    Arm(st, Poll(s)).(pollIntervalId := Some(st.nextId))
  }

  /** A login takes the manager: a new session, its promise, and the first status. */
  function Take(st: State, providerId: string, config: Config): State {
    var s := st.session + 1;
    Emit(st.(activeProviderId := Some(providerId), isCompleted := false, session := s,
             closures := st.closures[s := Closure(providerId, config)], resolvePromise := s),
         Some(providerId), Starting)
  }

  /** The session's window is shown and its two timers are armed. */
  function OpenWindow(st: State, providerId: string): State {
    var s := st.session;
    var shown := Emit(st.(window := Some(s), windows := st.windows + {s}), Some(providerId), Loading);
    var timed := Arm(shown, MinLogin(s)).(timeoutId := Some(shown.nextId));
    Arm(timed, Overall(s)).(timeoutTimer := Some(timed.nextId))
  }

  /** A login begins, unless one is in progress; opening the window may fail. */
  function Begin(st: State, providerId: string, config: Config, opens: bool): State {
    if st.activeProviderId.Some? then st
    else
      var taken := Take(st, providerId, config);
      if opens then OpenWindow(taken, providerId)
      else Finish(taken, Some(providerId), OpenError, Failed(OpenFailed), taken.session)
  }

  function CookieNames(config: Config): set<string> {
    set k | k in config.cookieNames
  }

  function StorageKeys(config: Config): set<string> {
    set k | k in config.storageKeys
  }

  function HeaderNames(config: Config): set<string> {
    set k | k in config.headerNames
  }

  /** The names a login must have collected. */
  function Required(config: Config): set<string> {
    CookieNames(config) + StorageKeys(config) + HeaderNames(config)
  }

  /** One configured header: kept if already captured, else taken from the request when it is there and not blank. */
  function CaptureOne(name: string, headers: map<string, string>, credentials: Credentials): Credentials {
    if name in credentials && credentials[name].Some? && credentials[name].value != "" then credentials
    else if Text.Lower(name) !in headers || Text.Blank(headers[Text.Lower(name)]) then credentials
    else credentials[name := Some(Text.Trim(headers[Text.Lower(name)]))]
  }

  /** The configured headers of one request, whose own names are already in lower case. */
  function Capture(names: seq<string>, headers: map<string, string>, credentials: Credentials): Credentials {
    if names == [] then credentials
    else Capture(names[1..], headers, CaptureOne(names[0], headers, credentials))
  }

  function CheckCredentials(st: State, s: nat, credentials: Credentials): State
    requires s in st.closures
  {
    var c := st.closures[s];
    if st.isCompleted then st
    else if Required(c.config) <= credentials.Keys && credentials != map[] then
      Finish(st, Some(c.providerId), Complete, Success(credentials), s)
    else ArmPoll(st, s)
  }

  function FoundCookies(found: map<string, string>): Credentials {
    map k | k in found :: Some(found[k])
  }

  function OnCookies(st: State, s: nat, found: Option<map<string, string>>): State
    requires s in st.closures
  {
    if st.isCompleted then st
    else if found.None? then ArmPoll(st, s)
    else
      var credentials := st.headerCredentials + FoundCookies(found.value);
      if st.closures[s].config.storageKeys != [] && st.window.Some? && st.window.value in st.windows then
        Arm(st, StorageReply(s, credentials))
      else CheckCredentials(st, s, credentials)
  }

  function OnTimer(st: State, task: Task): State
    requires task.IsTimer() && task.session in st.closures
  {
    var providerId := Some(st.closures[task.session].providerId);
    if st.isCompleted then st
    else match task
      case MinLogin(s) => ArmPoll(st, s)
      case Overall(s) => Finish(st, providerId, Expired, Failed(LoginTimedOut), s)
      case Poll(s) => Arm(st, CookieReply(s))
  }

  function OnWindowGone(st: State, s: nat): State
    requires s in st.closures
  {
    if st.isCompleted then st
    else Finish(st, Some(st.closures[s].providerId), Closed, Failed(WindowClosed), s)
  }

  function OnCancel(st: State): State {
    if st.activeProviderId.None? then st
    else Finish(st, None, CancelCalled, Failed(LoginCancelled), st.session)
  }

  /** Every pending task and every window belongs to a session that was started. */
  ghost predicate WellFormed(st: State) {
    && (forall id | id in st.pending :: st.pending[id].session in st.closures && id < st.nextId)
    && st.windows <= st.closures.Keys
    && (forall s | s in st.closures :: 1 <= s <= st.session)
    && (st.session > 0 ==> st.session in st.closures)
    && st.resolvePromise == st.session
  }

  function Step(st: State, e: Event): State
    requires WellFormed(st) && Enabled(st, e)
  {
    match e
    case Start(providerId, config, opens) => Begin(st, providerId, config, opens)
    case Fire(id) => OnTimer(st.(pending := st.pending - {id}), st.pending[id])
    case Cookies(id, found) => OnCookies(st.(pending := st.pending - {id}), st.pending[id].session, found)
    case Storage(id, values) =>
      var task := st.pending[id];
      CheckCredentials(st.(pending := st.pending - {id}), task.session,
                       if values.Some? then task.credentials + values.value else task.credentials)
    case WindowGone(s) => OnWindowGone(st.(windows := st.windows - {s}), s)
    case Request(s, headers) =>
      st.(headerCredentials := Capture(st.closures[s].config.headerNames, headers, st.headerCredentials))
    case Cancel => OnCancel(st)
  }

  // ------------------------------------------------------------- however sessions overlap

  /**
   * The settlements are those of the started sessions, in order and once each; only the
   * active session, if there is one, is still missing.
   */
  ghost predicate SettledOnce(st: State) {
    && (st.activeProviderId.Some? <==> st.session > 0 && !st.isCompleted)
    && (st.session == 0 ==> st.pending == map[] && st.windows == {})
    && |st.settled| == (if st.activeProviderId.Some? then st.session - 1 else st.session)
    && forall i | 0 <= i < |st.settled| :: st.settled[i].session == i + 1
  }

  /** A status names its provider, except the one that `cancel` sends after cleaning up. */
  ghost predicate StatusesNamed(st: State) {
    forall i | 0 <= i < |st.statuses| :: st.statuses[i].providerId.None? <==> st.statuses[i].kind == CancelCalled
  }

  ghost predicate Sound(st: State) {
    WellFormed(st) && SettledOnce(st) && StatusesNamed(st)
  }

  lemma FinishSound(st: State, providerId: Option<string>, kind: StatusKind, outcome: Outcome, cause: nat)
    requires Sound(st) && st.activeProviderId.Some?
    requires providerId.None? <==> kind == CancelCalled
    ensures Sound(Finish(st, providerId, kind, outcome, cause))
  {
  }

  lemma ArmSound(st: State, task: Task)
    requires Sound(st) && task.session in st.closures
    ensures Sound(Arm(st, task))
  {
    assert forall id | id in Arm(st, task).pending :: id == st.nextId || id in st.pending;
  }

  lemma WithoutSound(st: State, id: nat)
    requires Sound(st)
    ensures Sound(st.(pending := st.pending - {id}))
  {
  }

  lemma TakeSound(st: State, providerId: string, config: Config)
    requires Sound(st) && st.activeProviderId.None?
    ensures Sound(Take(st, providerId, config))
  {
  }

  lemma OpenWindowSound(st: State, providerId: string)
    requires Sound(st) && st.activeProviderId.Some?
    ensures Sound(OpenWindow(st, providerId))
  {
    var s := st.session;
    var shown := Emit(st.(window := Some(s), windows := st.windows + {s}), Some(providerId), Loading);
    ArmSound(shown, MinLogin(s));
    ArmSound(Arm(shown, MinLogin(s)).(timeoutId := Some(shown.nextId)), Overall(s));
  }

  lemma BeginSound(st: State, providerId: string, config: Config, opens: bool)
    requires Sound(st)
    ensures Sound(Begin(st, providerId, config, opens))
  {
    if st.activeProviderId.None? {
      TakeSound(st, providerId, config);
      var taken := Take(st, providerId, config);
      if opens {
        OpenWindowSound(taken, providerId);
      } else {
        FinishSound(taken, Some(providerId), OpenError, Failed(OpenFailed), taken.session);
      }
    }
  }

  lemma CheckSound(st: State, s: nat, credentials: Credentials)
    requires Sound(st) && s in st.closures
    ensures Sound(CheckCredentials(st, s, credentials))
  {
    if !st.isCompleted {
      if Required(st.closures[s].config) <= credentials.Keys && credentials != map[] {
        FinishSound(st, Some(st.closures[s].providerId), Complete, Success(credentials), s);
      } else {
        ArmSound(st, Poll(s));
      }
    }
  }

  lemma CookiesSound(st: State, s: nat, found: Option<map<string, string>>)
    requires Sound(st) && s in st.closures
    ensures Sound(OnCookies(st, s, found))
  {
    if !st.isCompleted {
      ArmSound(st, Poll(s));
      if found.Some? {
        var credentials := st.headerCredentials + FoundCookies(found.value);
        ArmSound(st, StorageReply(s, credentials));
        CheckSound(st, s, credentials);
      }
    }
  }

  lemma TimerSound(st: State, task: Task)
    requires Sound(st) && task.IsTimer() && task.session in st.closures
    ensures Sound(OnTimer(st, task))
  {
    if !st.isCompleted {
      ArmSound(st, Poll(task.session));
      ArmSound(st, CookieReply(task.session));
      FinishSound(st, Some(st.closures[task.session].providerId), Expired, Failed(LoginTimedOut), task.session);
    }
  }

  lemma StepSound(st: State, e: Event)
    requires Sound(st) && Enabled(st, e)
    ensures Sound(Step(st, e))
  {
    match e
    case Start(providerId, config, opens) =>
      BeginSound(st, providerId, config, opens);
    case Fire(id) =>
      WithoutSound(st, id);
      TimerSound(st.(pending := st.pending - {id}), st.pending[id]);
    case Cookies(id, found) =>
      WithoutSound(st, id);
      CookiesSound(st.(pending := st.pending - {id}), st.pending[id].session, found);
    case Storage(id, values) =>
      WithoutSound(st, id);
      var task := st.pending[id];
      CheckSound(st.(pending := st.pending - {id}), task.session,
                 if values.Some? then task.credentials + values.value else task.credentials);
    case WindowGone(s) =>
      if !st.isCompleted {
        FinishSound(st.(windows := st.windows - {s}), Some(st.closures[s].providerId), Closed, Failed(WindowClosed), s);
      }
    case Request(_, _) =>
    case Cancel =>
      if st.activeProviderId.Some? {
        FinishSound(st, None, CancelCalled, Failed(LoginCancelled), st.session);
      }
  }

  // ------------------------------------------------------------------------- runs

  /** The events so far, oldest first. */
  datatype Run = Begun | Next(before: Run, event: Event)

  /** Whether a login may start while callbacks of earlier sessions are outstanding. */
  datatype Sessions = Overlapping | OneAtATime

  /** No callback of an earlier session can still run. */
  predicate Drained(st: State) {
    st.pending == map[] && st.windows == {}
  }

  predicate Allowed(sessions: Sessions, st: State, e: Event) {
    Enabled(st, e) && (sessions.OneAtATime? && e.Start? && st.activeProviderId.None? ==> Drained(st))
  }

  /** The state a run leads to, when every event was possible where it happened. */
  ghost predicate Reaches(sessions: Sessions, run: Run, st: State) {
    match run
    case Begun => st == INITIAL
    case Next(before, e) =>
      exists prior ::
        Reaches(sessions, before, prior) && WellFormed(prior) && Allowed(sessions, prior, e) && st == Step(prior, e)
  }

  lemma {:induction false} ReachableIsSound(sessions: Sessions, run: Run, st: State)
    requires Reaches(sessions, run, st)
    ensures Sound(st)
  {
    if run.Next? {
      var prior :| Reaches(sessions, run.before, prior) && WellFormed(prior) && Allowed(sessions, prior, run.event) &&
          st == Step(prior, run.event);
      ReachableIsSound(sessions, run.before, prior);
      StepSound(prior, run.event);
    }
  }

  lemma Extend(sessions: Sessions, run: Run, st: State, e: Event) returns (after: State)
    requires Reaches(sessions, run, st) && Allowed(sessions, st, e)
    ensures WellFormed(st) && after == Step(st, e) && Reaches(sessions, Next(run, e), after)
  {
    ReachableIsSound(sessions, run, st);
    after := Step(st, e);
  }

  /** The events of a run in a list, oldest first. */
  function Trace(run: Run): seq<Event> {
    if run.Begun? then [] else Trace(run.before) + [run.event]
  }

  /** The number of times a session's promise has been settled. */
  function Settlements(settled: seq<Settlement>, s: nat): nat {
    if settled == [] then 0
    else Settlements(settled[..|settled| - 1], s) + if settled[|settled| - 1].session == s then 1 else 0
  }

  lemma {:induction false} CountInOrder(settled: seq<Settlement>, s: nat)
    requires forall i | 0 <= i < |settled| :: settled[i].session == i + 1
    ensures Settlements(settled, s) == if 1 <= s <= |settled| then 1 else 0
  {
    if settled != [] {
      CountInOrder(settled[..|settled| - 1], s);
    }
  }

  /**
   * In every interleaving, overlapping sessions included: a started session is settled exactly
   * once if it is over and not at all while it is active, and no other promise is settled.
   */
  lemma EverySessionSettledOnce(sessions: Sessions, run: Run, st: State, s: nat)
    requires Reaches(sessions, run, st)
    ensures Settlements(st.settled, s) ==
      if 1 <= s <= st.session && !(s == st.session && st.activeProviderId.Some?) then 1 else 0
  {
    ReachableIsSound(sessions, run, st);
    CountInOrder(st.settled, s);
  }

  /**
   * In every interleaving exactly the statuses of `cancel` carry no provider: it reads the field
   * it has just cleared.
   */
  lemma OnlyCancelStatusIsNameless(sessions: Sessions, run: Run, st: State, i: nat)
    requires Reaches(sessions, run, st) && i < |st.statuses|
    ensures st.statuses[i].providerId.None? <==> st.statuses[i].kind == CancelCalled
  {
    ReachableIsSound(sessions, run, st);
  }
}
