/**
 * The login manager as an object: methods and callbacks that update its fields in place, each
 * proved to be the step of the protocol that the event stands for. The ghost `run` records
 * the events, so what is proved of every run holds of the object.
 */
module LoginManager {
  import opened Options
  import opened LoginProtocol
  import Text

  /** The header sources of a login, looked up one by one in a request's headers. */
  method CaptureConfiguredHeaders(names: seq<string>, headers: map<string, string>, before: Credentials)
    returns (credentials: Credentials)
    ensures credentials == Capture(names, headers, before)
  {
    credentials := before;
    for i := 0 to |names|
      invariant Capture(names[i..], headers, credentials) == Capture(names, headers, before)
    {
      var name := names[i];
      if !(name in credentials && credentials[name].Some? && credentials[name].value != "") {
        if Text.Lower(name) in headers && !Text.Blank(headers[Text.Lower(name)]) {
          credentials := credentials[name := Some(Text.Trim(headers[Text.Lower(name)]))];
        }
      }
    }
  }

  class LoginManager {
    var isCompleted: bool
    var activeProviderId: Option<string>
    var resolvePromise: nat
    var timeoutId: Option<nat>
    var timeoutTimer: Option<nat>
    var pollIntervalId: Option<nat>
    var window: Option<nat>
    var headerCredentials: Credentials

    // the event loop the manager runs in
    var session: nat
    var closures: map<nat, Closure>
    var nextId: nat
    var pending: map<nat, Task>
    var windows: set<nat>
    var settled: seq<Settlement>
    var statuses: seq<Status>

    ghost var run: Run

    ghost function Abs(): State
      reads this
    {
      State(isCompleted, activeProviderId, resolvePromise, timeoutId, timeoutTimer, pollIntervalId, window,
            headerCredentials, session, closures, nextId, pending, windows, settled, statuses)
    }

    ghost predicate Valid()
      reads this
    {
      Reaches(Overlapping, run, Abs())
    }

    constructor ()
      ensures Valid() && run == Begun
    {
      isCompleted, activeProviderId, resolvePromise := false, None, 0;
      timeoutId, timeoutTimer, pollIntervalId, window := None, None, None, None;
      headerCredentials := map[];
      session, closures, nextId, pending, windows := 0, map[], 0, map[], {};
      settled, statuses := [], [];
      run := Begun;
    }

    // ------------------------------------------------------------ within one callback

    method SetTimeout(task: Task) returns (id: nat)
      modifies this`pending, this`nextId
      ensures Abs() == Arm(old(Abs()), task) && id == old(nextId)
    {
      id := nextId;
      pending := pending[id := task];
      nextId := nextId + 1;
    }

    method ClearTimeout(id: Option<nat>)
      modifies this`pending
      ensures pending == old(pending) - Ids(id, None, None)
    {
      if id.Some? {
        pending := pending - {id.value};
      }
    }

    method ClearTimeouts()
      modifies this`pending, this`timeoutId, this`timeoutTimer, this`pollIntervalId
      ensures pending == old(pending) - Ids(old(timeoutId), old(timeoutTimer), old(pollIntervalId))
      ensures timeoutId.None? && timeoutTimer.None? && pollIntervalId.None?
    {
      ClearTimeout(timeoutId);
      timeoutId := None;
      ClearTimeout(timeoutTimer);
      timeoutTimer := None;
      ClearTimeout(pollIntervalId);
      pollIntervalId := None;
    }

    method CleanUp()
      modifies this`isCompleted, this`activeProviderId, this`pending, this`timeoutId, this`timeoutTimer,
               this`pollIntervalId, this`window, this`headerCredentials
      ensures Abs() == LoginProtocol.CleanUp(old(Abs()))
    {
      isCompleted := true;
      activeProviderId := None;
      ClearTimeouts();
      window := None;
      headerCredentials := map[];
    }

    method EmitStatus(providerId: Option<string>, kind: StatusKind)
      modifies this`statuses
      ensures Abs() == Emit(old(Abs()), providerId, kind)
    {
      statuses := statuses + [Status(providerId, kind)];
    }

    method ResolveWith(outcome: Outcome, cause: nat)
      modifies this`settled
      ensures Abs() == Resolve(old(Abs()), outcome, cause)
    {
      if resolvePromise != 0 {
        settled := settled + [Settlement(resolvePromise, outcome, cause)];
      }
    }

    method FinishWith(providerId: Option<string>, kind: StatusKind, outcome: Outcome, cause: nat)
      modifies this
      ensures Abs() == Finish(old(Abs()), providerId, kind, outcome, cause) && run == old(run)
    {
      CleanUp();
      EmitStatus(providerId, kind);
      ResolveWith(outcome, cause);
    }

    method ScheduleOnePoll(s: nat)
      modifies this`pending, this`nextId, this`pollIntervalId
      ensures Abs() == ArmPoll(old(Abs()), s)
    {
      var id := SetTimeout(Poll(s));
      pollIntervalId := Some(id);
    }

    method ShowWindow(providerId: string)
      modifies this`window, this`windows, this`statuses
      ensures
        var shown := old(Abs()).(window := Some(old(session)), windows := old(windows) + {old(session)});
        Abs() == Emit(shown, Some(providerId), Loading)
    {
      window := Some(session);
      windows := windows + {session};
      EmitStatus(Some(providerId), Loading);
    }

    method ArmTimers()
      modifies this`pending, this`nextId, this`timeoutId, this`timeoutTimer
      ensures var s, id := old(session), old(nextId);
        var timed := Arm(old(Abs()), MinLogin(s)).(timeoutId := Some(id));
        Abs() == Arm(timed, Overall(s)).(timeoutTimer := Some(timed.nextId))
    {
      var first := SetTimeout(MinLogin(session));
      timeoutId := Some(first);
      var overall := SetTimeout(Overall(session));
      timeoutTimer := Some(overall);
    }

    method OpenLoginWindow(providerId: string)
      modifies this
      ensures Abs() == OpenWindow(old(Abs()), providerId) && run == old(run)
    {
      ShowWindow(providerId);
      ArmTimers();
    }

    method TakeLogin(providerId: string, config: Config)
      modifies this
      ensures Abs() == Take(old(Abs()), providerId, config) && run == old(run)
    {
      activeProviderId := Some(providerId);
      isCompleted := false;
      session := session + 1;
      closures := closures[session := Closure(providerId, config)];
      resolvePromise := session;
      EmitStatus(Some(providerId), Starting);
    }

    method Check(s: nat, credentials: Credentials)
      requires s in closures
      modifies this
      ensures Abs() == CheckCredentials(old(Abs()), s, credentials) && run == old(run)
    {
      if !isCompleted {
        var allFound := Required(closures[s].config) <= credentials.Keys;
        if allFound && credentials != map[] {
          FinishWith(Some(closures[s].providerId), Complete, Success(credentials), s);
        } else {
          ScheduleOnePoll(s);
        }
      }
    }

    // ---------------------------------------------------------------- calls and events

    lemma Extended(before: State, e: Event)
      requires Reaches(Overlapping, run, before)
      ensures WellFormed(before) && (Enabled(before, e) ==> Reaches(Overlapping, Next(run, e), Step(before, e)))
    {
      ReachableIsSound(Overlapping, run, before);
    }

    /** Answers whether a login was started; it is refused while another is active. */
    method StartLogin(providerId: string, config: Config, opens: bool) returns (started: bool)
      requires Valid()
      modifies this
      ensures Valid() && run == Next(old(run), Start(providerId, config, opens))
      ensures started <==> old(activeProviderId).None?
      ensures !started ==> Abs() == old(Abs())
    {
      Extended(Abs(), Start(providerId, config, opens));
      started := activeProviderId.None?;
      if started {
        TakeLogin(providerId, config);
        if opens {
          OpenLoginWindow(providerId);
        } else {
          FinishWith(Some(providerId), OpenError, Failed(OpenFailed), session);
        }
      }
      run := Next(run, Start(providerId, config, opens));
    }

    method TimerFires(id: nat)
      requires Valid() && Enabled(Abs(), Fire(id))
      modifies this
      ensures Valid() && run == Next(old(run), Fire(id))
    {
      Extended(Abs(), Fire(id));
      var task := pending[id];
      pending := pending - {id};
      if !isCompleted {
        match task {
          case MinLogin(s) =>
            ScheduleOnePoll(s);
          case Overall(s) =>
            FinishWith(Some(closures[s].providerId), Expired, Failed(LoginTimedOut), s);
          case Poll(s) =>
            var reply := SetTimeout(CookieReply(s));
        }
      }
      run := Next(run, Fire(id));
    }

    method CookiesArrive(id: nat, found: Option<map<string, string>>)
      requires Valid() && Enabled(Abs(), Cookies(id, found))
      modifies this
      ensures Valid() && run == Next(old(run), Cookies(id, found))
    {
      Extended(Abs(), Cookies(id, found));
      var s := pending[id].session;
      pending := pending - {id};
      if !isCompleted {
        if found.None? {
          ScheduleOnePoll(s);
        } else {
          var credentials := headerCredentials + FoundCookies(found.value);
          if closures[s].config.storageKeys != [] && window.Some? && window.value in windows {
            var reply := SetTimeout(StorageReply(s, credentials));
          } else {
            Check(s, credentials);
          }
        }
      }
      run := Next(run, Cookies(id, found));
    }

    method StorageArrives(id: nat, values: Option<Credentials>)
      requires Valid() && Enabled(Abs(), Storage(id, values))
      modifies this
      ensures Valid() && run == Next(old(run), Storage(id, values))
    {
      Extended(Abs(), Storage(id, values));
      var task := pending[id];
      pending := pending - {id};
      var credentials := task.credentials;
      if values.Some? {
        credentials := credentials + values.value;
      }
      Check(task.session, credentials);
      run := Next(run, Storage(id, values));
    }

    method WindowCloses(s: nat)
      requires Valid() && Enabled(Abs(), WindowGone(s))
      modifies this
      ensures Valid() && run == Next(old(run), WindowGone(s))
    {
      Extended(Abs(), WindowGone(s));
      windows := windows - {s};
      if !isCompleted {
        FinishWith(Some(closures[s].providerId), Closed, Failed(WindowClosed), s);
      }
      run := Next(run, WindowGone(s));
    }

    method RequestSent(s: nat, headers: map<string, string>)
      requires Valid() && Enabled(Abs(), Request(s, headers))
      modifies this
      ensures Valid() && run == Next(old(run), Request(s, headers))
    {
      Extended(Abs(), Request(s, headers));
      headerCredentials := CaptureConfiguredHeaders(closures[s].config.headerNames, headers, headerCredentials);
      run := Next(run, Request(s, headers));
    }

    method CancelLogin()
      requires Valid()
      modifies this
      ensures Valid() && run == Next(old(run), Cancel)
    {
      Extended(Abs(), Cancel);
      if activeProviderId.Some? {
        CleanUp();
        EmitStatus(activeProviderId, CancelCalled);
        ResolveWith(Failed(LoginCancelled), session);
      }
      run := Next(run, Cancel);
    }

    /** No provider is active exactly when every promise handed out so far has been settled, once each. */
    method GetActiveProvider() returns (provider: Option<string>)
      requires Valid()
      ensures provider == activeProviderId
      ensures provider.None? <==> forall s | 1 <= s <= session :: Settlements(settled, s) == 1
    {
      provider := activeProviderId;
      forall s: nat
        ensures Settlements(settled, s) ==
                  if 1 <= s <= session && !(s == session && activeProviderId.Some?) then 1 else 0
      {
        EverySessionSettledOnce(Overlapping, run, Abs(), s);
      }
      ReachableIsSound(Overlapping, run, Abs());
      assert provider.Some? ==> session >= 1 && Settlements(settled, session) == 0;
    }
  }
}
