/**
 * The provenance table of `x-codex-turn-state` blobs: which account minted the blob a
 * downstream session last received. Records live for a fixed time; expired ones are
 * dropped when read and swept from the whole table every 256 writes.
 *
 * `Table` and its steps say what each operation does to the table. The specification
 * is the plain history of calls, without expiry, deletion or sweeping: `LatestNote`
 * and `KnownForeign`. The theorems say that no run of calls can tell the two apart.
 */
module CodexTurnState {
  import opened Options
  import Sets
  import opened Text

  const TTL_MS: int := 2 * 60 * 60 * 1000
  const SWEEP_EVERY_WRITES: nat := 256

  datatype Origin = Origin(accountKey: string, expiresAt: int)

  datatype Table = Table(origins: map<string, Origin>, writes: nat)

  /** A session id or account key as the table sees it: trimmed, and absent when blank or not a string. */
  function Normalize(v: Option<string>): Option<string> {
    if v.Some? && Trim(v.value) != "" then Some(Trim(v.value)) else None
  }

  /**
   * Two spellings are the same session or account exactly when both are usable and agree up to
   * blank text around them.
   */
  lemma SameNameIff(a: string, b: string)
    ensures Normalize(Some(a)).Some? <==> !Blank(a)
    ensures !Blank(a) ==> (Normalize(Some(a)) == Normalize(Some(b)) <==> Trim(a) == Trim(b))
  {
    TrimEmptyIff(a);
    TrimEmptyIff(b);
  }

  // ------------------------------------------------------------ what one call does

  function Sweep(origins: map<string, Origin>, now: int): map<string, Origin> {
    map k | k in origins && origins[k].expiresAt > now :: origins[k]
  }

  predicate SweepDue(writes: nat) {
    writes % SWEEP_EVERY_WRITES == 0
  }

  function Note(t: Table, session: Option<string>, account: Option<string>, now: int): Table {
    var (s, a) := (Normalize(session), Normalize(account));
    if s.None? || a.None? then t
    else
      var origins := t.origins[s.value := Origin(a.value, now + TTL_MS)];
      Table(if SweepDue(t.writes + 1) then Sweep(origins, now) else origins, t.writes + 1)
  }

  function Check(t: Table, session: Option<string>, account: Option<string>, now: int): (Table, bool) {
    var (s, a) := (Normalize(session), Normalize(account));
    if s.None? || a.None? || s.value !in t.origins then (t, false)
    else
      var origin := t.origins[s.value];
      if origin.expiresAt <= now then (t.(origins := t.origins - {s.value}), false)
      else (t, origin.accountKey != a.value)
  }

  // ---------------------------------------------------------------- runs of calls

  datatype Call =
    | NoteCall(session: Option<string>, account: Option<string>, now: int)
    | CheckCall(session: Option<string>, account: Option<string>, now: int)
  {
    /** A call with a usable session and account; every other call is inert. */
    predicate Effective() {
      Normalize(session).Some? && Normalize(account).Some?
    }

    predicate Writes() {
      NoteCall? && Effective()
    }
  }

  /** The calls made so far, oldest first. */
  datatype History = Start | Then(past: History, call: Call)

  function Step(t: Table, c: Call): Table {
    match c
    case NoteCall(s, a, now) => Note(t, s, a, now)
    case CheckCall(s, a, now) => Check(t, s, a, now).0
  }

  function Run(h: History): Table {
    match h
    case Start => Table(map[], 0)
    case Then(past, c) => Step(Run(past), c)
  }

  /** The clock never runs backwards along the calls, and has not passed `now`. */
  predicate MonotoneUpTo(h: History, now: int) {
    h.Then? ==> h.call.now <= now && MonotoneUpTo(h.past, h.call.now)
  }

  // ----------------------------------------------------- the history specification

  datatype Minted = Minted(account: string, at: int)

  /** Who last minted a blob for `session`, and when: the last effective note, however old. */
  function LatestNote(h: History, session: string): Option<Minted> {
    match h
    case Start => None
    case Then(past, c) =>
      if c.Writes() && Normalize(c.session).value == session then Some(Minted(Normalize(c.account).value, c.now))
      else LatestNote(past, session)
  }

  predicate Live(m: Option<Minted>, now: int) {
    m.Some? && now < m.value.at + TTL_MS
  }

  /** The blob of `session` is known to come from an account other than `account`. */
  predicate KnownForeign(h: History, session: Option<string>, account: Option<string>, now: int) {
    var (s, a) := (Normalize(session), Normalize(account));
    s.Some? && a.Some? &&
    var m := LatestNote(h, s.value);
    Live(m, now) && m.value.account != a.value
  }

  // ------------------------------------------------------------------ refinement

  function WriteCount(h: History): nat {
    match h
    case Start => 0
    case Then(past, c) => WriteCount(past) + if c.Writes() then 1 else 0
  }

  lemma {:induction false} RunCountsWrites(h: History)
    ensures Run(h).writes == WriteCount(h)
  {
    if h.Then? {
      RunCountsWrites(h.past);
    }
  }

  /** This call, made after `past`, would delete an expired record of `s`: a sweep, or a check of `s` itself. */
  predicate Prunes(past: History, c: Call, s: string) {
    if c.Writes() then SweepDue(WriteCount(past) + 1) else c.Effective() && Normalize(c.session).value == s
  }

  /** Since the latest note of `s`, a sweep or a check of `s` ran at or past the expiry of that note. */
  predicate Forgotten(h: History, s: string) {
    match h
    case Start => false
    case Then(past, c) =>
      if c.Writes() && Normalize(c.session).value == s then false
      else Forgotten(past, s) || (Prunes(past, c, s) && LatestNote(past, s).Some? && !Live(LatestNote(past, s), c.now))
  }

  function RecordOf(m: Minted): Origin {
    Origin(m.account, m.at + TTL_MS)
  }

  /**
   * Under any clock whatever, the table is the history without what has been forgotten: it
   * holds a record of `s` exactly when there is a latest note that was not, and then that one.
   */
  lemma {:induction false} RunIsHistory(h: History, s: string)
    ensures s in Run(h).origins <==> LatestNote(h, s).Some? && !Forgotten(h, s)
    ensures s in Run(h).origins ==> Run(h).origins[s] == RecordOf(LatestNote(h, s).value)
  {
    if h.Then? {
      RunIsHistory(h.past, s);
      RunCountsWrites(h.past);
    }
  }

  /** The session whose record a check looks up has been forgotten. */
  predicate ForgottenFor(h: History, session: Option<string>) {
    Normalize(session).Some? && Forgotten(h, Normalize(session).value)
  }

  /**
   * For every history and any clock: the guard says yes exactly for a known foreign blob that
   * has not been forgotten. So it departs from the plain history exactly when a sweep or a check ran
   * at or past the expiry and the clock then went back to before it.
   */
  lemma GuardExactly(h: History, session: Option<string>, account: Option<string>, now: int)
    ensures Check(Run(h), session, account, now).1 <==>
              KnownForeign(h, session, account, now) && !ForgottenFor(h, session)
    ensures Check(Run(h), session, account, now).1 != KnownForeign(h, session, account, now) <==>
              KnownForeign(h, session, account, now) && ForgottenFor(h, session)
  {
    if Normalize(session).Some? {
      RunIsHistory(h, Normalize(session).value);
    }
  }

  /** What is still live has never been forgotten, when the clock does not run backwards. */
  lemma {:induction false} LiveIsNotForgotten(h: History, clock: int, s: string)
    requires MonotoneUpTo(h, clock) && Live(LatestNote(h, s), clock)
    ensures !Forgotten(h, s)
  {
    if h.Then? && !(h.call.Writes() && Normalize(h.call.session).value == s) {
      LiveIsNotForgotten(h.past, h.call.now, s);
    }
  }

  /** The record of `s` is what the history says, except that an expired one may be gone. */
  ghost predicate Agrees(t: Table, latest: Option<Minted>, clock: int, s: string) {
    && (s in t.origins ==> latest.Some? && t.origins[s] == RecordOf(latest.value))
    && (Live(latest, clock) ==> s in t.origins)
  }

  lemma RunAgrees(h: History, clock: int, s: string)
    requires MonotoneUpTo(h, clock)
    ensures Agrees(Run(h), LatestNote(h, s), clock, s)
  {
    RunIsHistory(h, s);
    if Live(LatestNote(h, s), clock) {
      LiveIsNotForgotten(h, clock, s);
    }
  }

  /**
   * For every run of calls under a clock that does not run backwards, the guard answers
   * exactly what the plain history says: lazy deletion and sweeping are never observable.
   */
  lemma GuardMatchesHistory(h: History, session: Option<string>, account: Option<string>, now: int)
    requires MonotoneUpTo(h, now)
    ensures Check(Run(h), session, account, now).1 <==> KnownForeign(h, session, account, now)
  {
    GuardExactly(h, session, account, now);
    if KnownForeign(h, session, account, now) {
      LiveIsNotForgotten(h, now, Normalize(session).value);
    }
  }

  /** A call with a blank or missing session or account changes nothing, and its answer is no. */
  lemma BlankCallsAreInert(t: Table, c: Call)
    requires !c.Effective()
    ensures Step(t, c) == t
    ensures c.CheckCall? ==> !Check(t, c.session, c.account, c.now).1
  {
  }

  /** Such a run exists: a check at the expiry time forgets the record for earlier times. */
  lemma BackwardClockIsObservable()
    ensures exists h, session, account, now ::
      KnownForeign(h, session, account, now) && ForgottenFor(h, session)
  {
    var s, b := Some("s"), Some("b");
    TrimFixes("s");
    TrimFixes("a");
    TrimFixes("b");
    var h := Then(Then(Start, NoteCall(s, Some("a"), 0)), CheckCall(s, b, TTL_MS));
    assert LatestNote(h.past, "s") == Some(Minted("a", 0));
    assert KnownForeign(h, s, b, 0) && ForgottenFor(h, s);
  }

  // ---------------------------------------------------------------- memory bound

  predicate EndsInSweep(h: History) {
    h.Then? && h.call.Writes() && SweepDue(WriteCount(h))
  }

  /** The history up to and including the last sweep; empty when the table was never swept. */
  function LastSweep(h: History): (swept: History)
    ensures swept.Start? || EndsInSweep(swept)
  {
    if h.Start? || EndsInSweep(h) then h else LastSweep(h.past)
  }

  /** The sessions whose latest note had not expired at `now`. */
  function LiveSessions(h: History, now: int): set<string> {
    set s | s in NotedSessions(h) && Live(LatestNote(h, s), now)
  }

  function NotedSessions(h: History): (sessions: set<string>)
    ensures forall s | LatestNote(h, s).Some? :: s in sessions
  {
    match h
    case Start => {}
    case Then(past, c) => NotedSessions(past) + if c.Writes() then {Normalize(c.session).value} else {}
  }

  lemma {:induction false} MonotonePart(h: History, clock: int)
    requires MonotoneUpTo(h, clock)
    ensures var swept := LastSweep(h); swept.Then? ==> MonotoneUpTo(swept, swept.call.now) && swept.call.now <= clock
  {
    if h.Then? && !EndsInSweep(h) {
      MonotonePart(h.past, h.call.now);
    }
  }

  /** Right after a sweep the table holds exactly the sessions that are still live. */
  lemma SweepLeavesLive(h: History)
    requires EndsInSweep(h) && MonotoneUpTo(h, h.call.now)
    ensures Run(h).origins.Keys == LiveSessions(h, h.call.now)
    ensures forall s | s in Run(h).origins :: Run(h).origins[s].expiresAt > h.call.now
  {
    RunCountsWrites(h);
    forall s ensures s in Run(h).origins <==> s in LiveSessions(h, h.call.now) {
      RunAgrees(h, h.call.now, s);
    }
  }

  /** In every reachable state every record expires after the time of the last sweep. */
  lemma {:induction false} RecordsOutliveSweep(h: History, clock: int)
    requires MonotoneUpTo(h, clock)
    ensures
      var swept := LastSweep(h);
      swept.Then? ==> forall s | s in Run(h).origins :: Run(h).origins[s].expiresAt > swept.call.now
  {
    MonotonePart(h, clock);
    if EndsInSweep(h) {
      SweepLeavesLive(h);
    } else if h.Then? {
      MonotonePart(h.past, h.call.now);
      RecordsOutliveSweep(h.past, h.call.now);
    }
  }

  function Added(c: Call): set<string> {
    if c.Writes() then {Normalize(c.session).value} else {}
  }

  lemma SweepOnlyRemoves(origins: map<string, Origin>, now: int)
    ensures Sweep(origins, now).Keys <= origins.Keys
  {
  }

  lemma StepKeys(t: Table, c: Call)
    ensures Step(t, c).origins.Keys <= t.origins.Keys + Added(c)
  {
    if c.Writes() {
      var record := Origin(Normalize(c.account).value, c.now + TTL_MS);
      SweepOnlyRemoves(t.origins[Normalize(c.session).value := record], c.now);
    }
  }

  /** One call adds at most one record, and only when it writes. */
  lemma StepGrowth(t: Table, c: Call)
    ensures |Step(t, c).origins| <= |t.origins| + if c.Writes() then 1 else 0
  {
    StepKeys(t, c);
    var before, after, added := t.origins.Keys, Step(t, c).origins.Keys, Added(c);
    Sets.SubsetSize(after, before + added);
    assert |before + added| <= |before| + |added|;
  }

  function WritesSinceSweep(h: History): nat {
    if h.Start? || EndsInSweep(h) then 0
    else WritesSinceSweep(h.past) + if h.call.Writes() then 1 else 0
  }

  lemma {:induction false} WritesSinceSweepIsRemainder(h: History)
    ensures WritesSinceSweep(h) == WriteCount(h) % 256
  {
    if h.Then? && !EndsInSweep(h) {
      WritesSinceSweepIsRemainder(h.past);
      if h.call.Writes() {
        assert (WriteCount(h.past) + 1) % 256 != 0;
      }
    }
  }

  /** The sessions live at the last sweep; none when the table was never swept. */
  function LiveAtLastSweep(h: History): set<string> {
    var swept := LastSweep(h);
    if swept.Start? then {} else LiveSessions(swept, swept.call.now)
  }

  lemma {:induction false} GrowthSinceSweep(h: History, clock: int)
    requires MonotoneUpTo(h, clock)
    ensures |Run(h).origins| <= |LiveAtLastSweep(h)| + WritesSinceSweep(h)
  {
    if EndsInSweep(h) {
      SweepLeavesLive(h);
      assert |Run(h).origins| == |Run(h).origins.Keys|;
    } else if h.Then? {
      GrowthSinceSweep(h.past, h.call.now);
      StepGrowth(Run(h.past), h.call);
    }
  }

  /**
   * In every reachable state the table holds at most one record per session that was live
   * at the last sweep, plus one per write since: the write count modulo 256.
   */
  lemma TableIsBounded(h: History, clock: int)
    requires MonotoneUpTo(h, clock)
    ensures |Run(h).origins| <= |LiveAtLastSweep(h)| + WriteCount(h) % 256
  {
    GrowthSinceSweep(h, clock);
    WritesSinceSweepIsRemainder(h);
  }

  // --------------------------------------------------------------- the live table

  /** The module-level table and write counter, with the calls made so far as a ghost. */
  class TurnStateOrigins {
    var origins: map<string, Origin>
    var writes: nat
    ghost var calls: History

    ghost function Abs(): Table
      reads this
    {
      Table(origins, writes)
    }

    ghost predicate Valid()
      reads this
    {
      Abs() == Run(calls)
    }

    constructor ()
      ensures Valid() && calls == Start
    {
      origins, writes, calls := map[], 0, Start;
    }

    method SweepExpired(now: int)
      modifies this`origins
      ensures origins == Sweep(old(origins), now)
    {
      var pending := origins.Keys;
      while pending != {}
        invariant pending <= old(origins).Keys
        invariant origins == map k | k in old(origins) && (k in pending || old(origins)[k].expiresAt > now) ::
                  old(origins)[k]
        decreases |pending|
      {
        var key :| key in pending;
        if origins[key].expiresAt <= now {
          origins := origins - {key};
        }
        pending := pending - {key};
      }
    }

    method NoteProvenance(clientSessionId: Option<string>, accountKey: Option<string>, now: int)
      requires Valid()
      modifies this
      ensures Valid() && calls == Then(old(calls), NoteCall(clientSessionId, accountKey, now))
    {
      var sessionId, account := Normalize(clientSessionId), Normalize(accountKey);
      if sessionId.Some? && account.Some? {
        origins := origins[sessionId.value := Origin(account.value, now + TTL_MS)];
        writes := writes + 1;
        if writes % SWEEP_EVERY_WRITES == 0 {
          SweepExpired(now);
        }
      }
      calls := Then(calls, NoteCall(clientSessionId, accountKey, now));
    }

    method IsCrossAccount(clientSessionId: Option<string>, accountKey: Option<string>, now: int) returns (foreign: bool)
      requires Valid()
      modifies this
      ensures Valid() && calls == Then(old(calls), CheckCall(clientSessionId, accountKey, now))
      ensures foreign <==>
                KnownForeign(old(calls), clientSessionId, accountKey, now) && !ForgottenFor(old(calls), clientSessionId)
      ensures MonotoneUpTo(calls, now) ==> (foreign <==> KnownForeign(old(calls), clientSessionId, accountKey, now))
    {
      var sessionId, account := Normalize(clientSessionId), Normalize(accountKey);
      if sessionId.None? || account.None? || sessionId.value !in origins {
        foreign := false;
      } else {
        var origin := origins[sessionId.value];
        if origin.expiresAt <= now {
          origins := origins - {sessionId.value};
          foreign := false;
        } else {
          foreign := origin.accountKey != account.value;
        }
      }
      GuardExactly(calls, clientSessionId, accountKey, now);
      calls := Then(calls, CheckCall(clientSessionId, accountKey, now));
      if MonotoneUpTo(calls, now) {
        GuardMatchesHistory(old(calls), clientSessionId, accountKey, now);
      }
    }
  }
}
